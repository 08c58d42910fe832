# Offline money, verified

Deferred lets a wallet hold money offline as tokens of five denominations. This project models three parts of it and
proves what they promise.

**Secret sharing.** The wallet's master seed is split into n shares, any k of which recover it. Every byte of the seed
is the constant term of a random polynomial over GF(2^8), the field of section 4.2 of FIPS 197. The model starts from
the definition of the field (XOR, `xtime`, Horner's rule), shows that multiplication is the carry-less product modulo
0x11B, and that the generator 3 has order 255. On this the lookup tables, interpolation, splitting, reconstruction and
share verification are proved. Random coefficients are an arbitrary function of the byte and the draw.

**Coins.** Minting is greedy from an unlimited supply. Payments first try a greedy exact match from the tokens at hand
and then search all subsets with pruning. Both greedy algorithms are proved optimal for the five denominations, where
2000 does not divide 5000, and the search is proved optimal for all coins. `GreedyMatches` says when the first attempt
finds a match that exists.

**The ledger.** Wallets, tokens, transactions, the registry of spent tokens, settlements, the sync queue, top-ups and
the secure element form one state. Eight kinds of request change it; each is one transaction that is rolled back when a
key or CHECK constraint fails, while the secure element, which lives in memory, is not rolled back. The class
`Ledger.Ledger` carries out the requests loop by loop and is proved to take exactly the steps of the state machine in
`LedgerSteps`. About that state machine there are invariants of every run (`LedgerSafety`), and of runs in which
merchants submit only proofs that offline payments handed out (`Honest`): agreement of settlement, sync and registry,
solvency, and the books. `Sound` gathers these invariants and `Reachable` names the worlds that honest requests can lead
to; every reachable world is sound. What the program draws or leaves open (ids, codes, random material, the clock, the
order of query results) is a parameter or an arbitrary choice.

## Files

- `Lists`, `Sorting`, `Sums`: lists without repetitions; a stable sort; sums over finite maps.
- `Field`, `CarrylessProduct`: the field and its reference definition.
- `BitLists`, `PowerCertificates`, `CyclicOrder`, `Generator`, `Inverses`: the order of the generator, and division.
- `Tables`, `Polynomials`, `Interpolation`, `Shamir`, `ShamirTheorems`, `Secrecy`, `ShamirOutcomes`: from the tables to
  secret sharing.
- `Coins`, `CoinSelection`, `GreedyMatches`: minting and choosing tokens.
- `KeyRecords`, `LedgerState`, `LedgerSteps`: the keys, the rows and the steps. `LedgerSafety`, `LedgerAgreement`,
  `LedgerBooks`, `LedgerSolvency`: what each step keeps. `Requests`: when each goes through and all that it changes.
- `LedgerRuns`, `MerchantLock`, `EmergencyCodes`, `SyncDrain`, `SyncFilters`: theorems about runs and triggers.
  `DoubleCharges`, `PaymentChecks`, `SharedCodes`, `ForgedProofs`, `SyncConflicts`: exactly when a promise holds.
  `Witnesses`: runs in which one fails.
- `SecureElement`, `Queries`, `PaymentSelection`, `Ledger`: the services, loop by loop.

## Where code and promises differ

- The offline query does not look at `otp_code`, so a payment can spend a token that a code has locked. Its value then
  leaves the balance twice. `DoubleCharges` proves that the books agree exactly in the runs where this does not happen,
  and `Witnesses.LockedTokenIsPaid` shows one where it does.
- Such a payment also breaks the code: it redeems the amount it was generated for exactly if no payment spent one of
  its tokens (`EmergencyCodes.GeneratedAmountRedeems`), and finds too little or nothing otherwise
  (`Witnesses.PaidCodeIsRefused`).
- For the same reason the CHECK on the balance can stop a payment that its guard let through, although nothing was
  charged twice (`Witnesses.DustCannotPay`). `PaymentChecks.PaymentSucceedsWhen` gives the exact condition. The tokens
  of a payment stopped there have lost their keys, and every later offline payment that picks one fails. A code that
  has locked such a token still redeems it, because emergency settlement looks at no keys
  (`Witnesses.StrandedTokenRedeems`).
- The CHECK stops codes as well, once more was charged twice than there is dust (`PaymentChecks.UnlockedTokensFitWhen`,
  `Witnesses.NextCodeIsStopped`).
- Codes are drawn at random and never compared. A code that two wallets share refunds the smallest token's wallet;
  `SharedCodes.RefundsBalanceWhen` says exactly when that breaks the balances.
- A refund can exceed the offline allowance when the wallet was topped up after the code was generated; the redemption
  is then refused (`Witnesses.RefundExceedsAllowance`). `EmergencyCodes.RedemptionSucceedsWhen` gives the exact
  condition.
- Settlement checks no signatures and compares no amounts. It accepts a proof that names another payment's tokens, and
  a proof without tokens for any payment and amount, which is then guaranteed against nothing
  (`ForgedProofs.EmptyProofIsGuaranteed`). `ForgedProofs` says, for each invariant and for all together, exactly which
  accepted proofs keep it; emitted ones always do. `Witnesses.ForgedProofHappens` is a run with a forged one. The
  merchant lock compares a proof with its submitter and not with the payment (`MerchantLock.MatchKeptWhen`).
- The sync router speaks of a dead-letter queue. Failed items are in fact fetched again by every trigger, and a trigger
  does nothing exactly when all items it takes are stuck (`SyncConflicts.StuckItemsBlock`). A stuck item is freed by an
  accepted settlement of its payment and by nothing else, and no honest request frees it.
- `verify_shares` compares the first window with at most three more, so an altered share after the first k + 3 goes
  unnoticed (`ShamirTheorems.VerificationOfSplit` says exactly when).
- `select_tokens` documents dynamic programming in O(n * target); the code is an exhaustive search.

## Model

| member | source | states |
|---|---|---|
| CarrylessProduct.MulIsProductModulo | app/crypto/shamir.py:15-55 | multiplication of bytes is the remainder of the carry-less product by 0x11B, and the only one |
| Field.MulAssociates | app/crypto/shamir.py:51-55 | multiplication is associative |
| Field.MulCommutes | app/crypto/shamir.py:51-55 | multiplication is commutative |
| Field.MulAddRight | app/crypto/shamir.py:51-55 | multiplication distributes over XOR |
| Inverses.InverseExists | app/crypto/shamir.py:67-71 | every non-zero byte has an inverse |
| Inverses.DivideMul | app/crypto/shamir.py:58-64 | multiplying a quotient by its divisor gives back the dividend |
| Generator.GeneratorOrder | app/crypto/shamir.py:22-27 | a power of 3 is 1 exactly when the exponent is a multiple of 255 |
| Generator.EveryByteIsAPower | app/crypto/shamir.py:22-27 | the first 255 powers of 3 reach every non-zero byte |
| Tables.GfTables.constructor | app/crypto/shamir.py:21-48 | the filled tables hold the powers of 3, repeated with period 255, and their exponents |
| Tables.GfTables.FillOnePeriod | app/crypto/shamir.py:31-41 | the first loop writes each of 255 different powers once, with its logarithm, and comes back to 1 |
| Tables.GfTables.NextPower | app/crypto/shamir.py:36-41 | shift, reduce and XOR multiply by 3 in the field |
| Tables.GfTables.RepeatPeriod | app/crypto/shamir.py:43-46 | the second loop continues the exp table periodically |
| Tables.GfTables.TablesAreInverse | app/crypto/shamir.py:21-48 | exp undoes log on 1..255 and log undoes exp on 0..254 |
| Tables.GfTables.GfMul | app/crypto/shamir.py:51-55 | table multiplication is multiplication in the field |
| Tables.GfTables.GfDiv | app/crypto/shamir.py:58-64 | table division is division in the field, with an error for a zero divisor |
| Tables.GfTables.GfInv | app/crypto/shamir.py:67-71 | table inversion is inversion in the field, with an error for zero |
| Shamir.EvalAt | app/crypto/shamir.py:95-106 | summing coefficients times running powers evaluates the polynomial |
| Shamir.LagrangeBasis | app/crypto/shamir.py:120-134 | the inner loop computes the weight of a point, never dividing by zero when the points differ |
| Shamir.LagrangeInterpolate | app/crypto/shamir.py:109-136 | the loop computes the weighted sum of the values |
| Interpolation.WeightsSumToOne | app/crypto/shamir.py:109-136 | the weights of distinct points add up to 1 |
| Interpolation.InterpolationIsExact | app/crypto/shamir.py:109-136 | from as many distinct points as coefficients, interpolation at 0 gives the constant term |
| Polynomials.AgreeingPolynomialsAreEqual | app/crypto/shamir.py:95-106 | two polynomials of length k that agree at k distinct points are the same |
| Polynomials.InterpolantFits | app/crypto/shamir.py:109-136 | some polynomial of length k takes any given values at k distinct points |
| Shamir.Split | app/crypto/shamir.py:152-184 | refuses bad thresholds; otherwise share i holds the values of all byte polynomials at i |
| Shamir.Reconstruct | app/crypto/shamir.py:187-219 | refuses too few, unequal or duplicate shares; otherwise interpolates every byte at 0 |
| Shamir.VerifyShares | app/crypto/shamir.py:222-249 | compares the first window of k shares with up to three shifted ones, raising what reconstruction raises |
| ShamirTheorems.EnoughSharesRecover | app/crypto/shamir.py:187-219 | k or more shares of polynomials of length k give back all constant terms |
| ShamirTheorems.RoundTrip | app/crypto/shamir.py:139-219 | any k or more distinct shares of a split, in any order, reconstruct exactly the secret |
| ShamirTheorems.ExactlyOneExplanation | app/crypto/shamir.py:142-149 | for k-1 shares showing anything, each candidate byte has exactly one explaining coefficient vector |
| ShamirTheorems.SharesHideTheSecret | app/crypto/shamir.py:142-149 | k-1 shares of a split fit every secret of the same length, each for exactly one choice of all coefficients |
| ShamirTheorems.EquallyManyExplanations | app/crypto/shamir.py:142-149 | for any number of shares below k, a fixed translation carries the explanations of one secret byte to those of any other |
| ShamirTheorems.PlusTwice | app/crypto/shamir.py:142-149 | that translation is its own inverse |
| Secrecy.CountExplanations | app/crypto/shamir.py:142-149 | m < k shares leave every candidate byte exactly 256^(k-1-m) explaining coefficient vectors |
| Secrecy.CountHidingCoefficients | app/crypto/shamir.py:142-149 | and every candidate secret of length n exactly that number to the power n of coefficient choices |
| ShamirTheorems.ConsistentSharesVerify | app/crypto/shamir.py:222-249 | shares of one list of polynomials always verify |
| ShamirTheorems.OneAlteredShare | app/crypto/shamir.py:234-249 | with the bytes of one share altered, verification fails exactly if there is a spare share and the altered one is among the first k+3 |
| ShamirTheorems.VerificationOfSplit | app/crypto/shamir.py:222-249 | the same for shares picked from a split in any order, altered or not |
| ShamirOutcomes.SplitAcceptsWhen | app/crypto/shamir.py:166-171 | a split succeeds exactly if 2 <= k <= n <= 255; which error comes otherwise |
| ShamirOutcomes.ShareBytes | app/crypto/shamir.py:173-184 | byte b of share i is the secret byte plus the sum of the draws for b, each times the next power of i + 1 |
| ShamirOutcomes.SplitHidesTheSecret | app/crypto/shamir.py:142-149 | for every candidate of the same length and any fewer than k positions, other draws make its split show the same shares there |
| ShamirOutcomes.SplitHidesInOneWay | app/crypto/shamir.py:142-149 | with k-1 positions those draws are determined wherever the split looks at them |
| ShamirOutcomes.ReconstructAcceptsWhen | app/crypto/shamir.py:199-210 | reconstruction succeeds exactly for two or more shares of equal length with distinct indices; which error comes otherwise |
| ShamirOutcomes.ReconstructsThePolynomials | app/crypto/shamir.py:187-219 | what it accepts are shares of polynomials with one coefficient a share, and their constant terms are the answer |
| ShamirOutcomes.VerifiesWhen | app/crypto/shamir.py:222-249 | any list verifies exactly if it has at least k shares and all windows compared reconstruct one secret; with fewer than k the answer is no |
| ShamirOutcomes.VerificationFailsWhen | app/crypto/shamir.py:234-249 | otherwise the first window that fails decides between no and the error that reconstruction raises |
| Coins.MintTokens | app/crypto/tokens.py:93-122 | mints the amount down to a multiple of 500, and no valid tokens of that total are fewer |
| Coins.GreedyIsFewest | app/crypto/tokens.py:116-120 | a greedy choice beats every other one from the same limited supply although 2000 does not divide 5000 |
| CoinSelection.TryExactMatch | app/crypto/tokens.py:295-310 | the loop computes the greedy match on the tokens sorted by denomination |
| CoinSelection.GreedyIsExact | app/crypto/tokens.py:295-310 | a greedy match uses tokens of the supply and meets the target exactly |
| CoinSelection.GreedyIsOptimal | app/crypto/tokens.py:295-310 | for valid denominations no other exact match from the supply has fewer tokens |
| CoinSelection.GreedyNeedsTheDenominations | app/crypto/tokens.py:26-26 | for other coins the greedy match can use too many tokens |
| GreedyMatches.GreedyFindsMatchWhen | app/crypto/tokens.py:295-310 | without 2000 or without 5000 among valid tokens the greedy match succeeds exactly if some choice meets the target |
| GreedyMatches.GreedyFindsAny | app/crypto/tokens.py:295-310 | the same for all coins of which each divides every larger one |
| GreedyMatches.GreedyMissesAMatch | app/crypto/tokens.py:252-285 | with both it can miss a match that exists, which is left to the search |
| CoinSelection.Search.Explore | app/crypto/tokens.py:257-285 | with IncludeAndSkip, the search terminates, restores the selection, and ends with a best no completion beats |
| CoinSelection.Search.RecordIfBetter | app/crypto/tokens.py:260-269 | the record only improves, in order of total and then count |
| CoinSelection.SelectTokens | app/crypto/tokens.py:213-292 | raises for no or too little money; otherwise covers the target with the least total and, for valid tokens, the fewest tokens |
| SecureElement.SoftwareSecureElement.GenerateKeypair | app/crypto/secure_element.py:120-136 | creates or replaces a live key, never one that was destroyed |
| SecureElement.SoftwareSecureElement.Sign | app/crypto/secure_element.py:138-148 | signs with live keys only and tells destroyed from missing keys |
| SecureElement.SoftwareSecureElement.DestroyKey | app/crypto/secure_element.py:150-187 | destroys once; later calls return the first proof and change nothing |
| SecureElement.SoftwareSecureElement.HasKey | app/crypto/secure_element.py:199-202 | a key exists exactly while it is live |
| SecureElement.SoftwareSecureElement.GetPublicKey | app/crypto/secure_element.py:204-209 | the public key stays readable after destruction |
| SecureElement.TokenManager.SpendToken | app/crypto/tokens.py:155-187 | signs and destroys; keeps that no key signs twice; changes nothing on failure |
| KeyRecords.SpendKeysSafe | app/services/payment_service.py:233-254 | spending tokens in turn never signs with a destroyed key and destroys every key that signed, even when it stops halfway |
| KeyRecords.KeysSuffice | app/services/payment_service.py:233-254 | tokens can be spent in turn exactly if no key among them was destroyed before |
| KeyRecords.SpendsInOrder | app/services/payment_service.py:233-254 | the keys used are exactly those of the tokens before the first whose key was destroyed before |
| Queries.Rows | app/services/payment_service.py:184-190 | returns exactly the rows that satisfy the condition, once each, in any order |
| PaymentSelection.ChoiceIsBest | app/services/payment_service.py:192-214 | the selected rows are the best payment from the rows the query found: least total, then fewest |
| PaymentSelection.NoChoice | app/services/payment_service.py:209-214 | selection fails only if no spendable rows cover the amount |
| Ledger.Ledger.CreateWallet | app/services/wallet_service.py:98-118 | the record of a new wallet has empty balances and the given allowance |
| Ledger.Ledger.CreateTopUp | app/routers/topups.py:66-148 | guards the allowance, splits the amount, mints fewest tokens, all or nothing |
| Ledger.Ledger.AddRows | app/routers/topups.py:133-144 | inserts one unspent token for each one minted and notices taken ids |
| Ledger.Ledger.CreateOnlinePayment | app/services/payment_service.py:89-131 | checks and deducts the online balance and records a succeeded payment |
| Ledger.Ledger.CreateOfflinePayment | app/services/payment_service.py:155-310 | takes the offline payment step with the best selection; a failure restores the database but not the secure element |
| Ledger.Ledger.SpendTokens | app/services/payment_service.py:233-254 | the loop generates missing keys, signs and destroys in order and stops at a destroyed key |
| Ledger.Ledger.MarkTokens | app/services/payment_service.py:258-263 | marks exactly the consumed tokens as spent in the payment |
| Ledger.Ledger.GenerateEmergencyCode | app/services/payment_service.py:353-404 | locks unlocked tokens that cover the amount and are fewest among all covering choices; finds none only if no choice covers |
| Ledger.Ledger.SettleEmergencyCode | app/services/settlement_service.py:195-325 | takes the redemption step on the rows the code finds, or restores the database |
| Ledger.Ledger.TakeUntilCovered | app/services/settlement_service.py:238-250 | splits the sorted rows into the shortest covering prefix and the rest |
| Ledger.Ledger.ConsumeRows | app/services/settlement_service.py:252-283 | registers and settles the prefix, frees the rest and refunds its value |
| Ledger.Ledger.SettlePayment | app/services/settlement_service.py:41-166 | takes the settlement step for any proof, genuine or not |
| Ledger.Ledger.CheckTokens | app/services/settlement_service.py:100-121 | stops at the first token without an id or with a registry row |
| Ledger.Ledger.RegisterTokens | app/services/settlement_service.py:129-143 | registers and settles the tokens and notices repeated or unknown ones |
| Ledger.Ledger.TriggerSync | app/services/sync_service.py:38-142 | processes the oldest due items up to the batch size and reports on each, in order, what became of it |
| Ledger.Ledger.ProcessSyncItem | app/services/sync_service.py:161-207 | completes, fails or retries one item; a conflict leaves the rows written before it |
| LedgerSafety.StepIsSafe | app/models.py:136-186 | every step keeps: constraints hold, registered tokens are gone, completed items succeeded, keys are disjoint and sign once; tables only grow |
| LedgerSafety.RedeemNeverCollides | app/services/settlement_service.py:252-260 | no token that a code finds is registered, so the unchecked insert never collides |
| LedgerRuns.RunsAreSafe | app/db.py:45-55 | safety and growth hold over every run from a safe state, arbitrary proofs included |
| LedgerRuns.NoDoubleSpend | app/services/settlement_service.py:109-143 | a registered token keeps its one row forever and can never be spent again |
| LedgerRuns.SignedOnce | app/services/payment_service.py:233-254 | in every run no key signs twice, and a token whose key was destroyed appears in no later proof |
| LedgerRuns.SuccessIsFinal | app/services/sync_service.py:172-205 | completed items belong to succeeded payments, and success is never left |
| LedgerRuns.FeesAlwaysSplit | app/services/settlement_service.py:126-127 | in every run fee and net add up to the amount and the fee is exactly 3% of it, truncated toward zero |
| LedgerAgreement.StepAgrees | app/services/settlement_service.py:100-166 | honest steps keep settlement, sync, queue and registry in agreement about every payment |
| LedgerAgreement.SyncOneCompletes | app/services/sync_service.py:161-207 | in agreement sync always completes an item and never reports a double spend |
| LedgerRuns.HonestRunsAreSound | app/services/settlement_service.py:41-192 | all invariants hold after every honest run |
| LedgerRuns.AllOrNothing | app/services/payment_service.py:257-310 | an offline payment is pending with no token registered or succeeded with all registered under its id; payments share no tokens |
| LedgerRuns.ReplayFails | app/services/settlement_service.py:109-121 | settling an emitted proof fails with a double spend exactly if its payment has succeeded |
| LedgerRuns.SettlementsAreCovered | app/services/settlement_service.py:123-166 | settlements never exceed registered tokens nor allocations, and no payment is settled twice |
| Requests.RefusalsChangeNothing | app/db.py:45-55 | a refused request leaves the world as it was, except that a payment may have used up keys |
| Requests.WalletIsCreated | app/services/wallet_service.py:98-118 | a wallet is created exactly if its id is new, with empty balances, and nothing else changes |
| Requests.TopUpAnswers | app/routers/topups.py:66-99 | a known wallet's top-up is refused for the allowance exactly if balance plus allocation exceeds it; otherwise it goes through exactly if its id and all token ids are new and distinct |
| Requests.TopUpAdds | app/routers/topups.py:101-148 | it moves the two parts of the amount to the two balances, adds one top-up and exactly the minted tokens, and changes nothing else |
| Requests.OnlinePaymentAnswers | app/services/payment_service.py:101-130 | an online payment of a known wallet goes through exactly if the online balance covers the amount and its id is new |
| Requests.OnlinePaymentMoves | app/services/payment_service.py:110-130 | it takes the amount from that balance and adds one succeeded payment, and changes nothing else |
| Requests.OfflinePaymentAnswers | app/services/payment_service.py:174-310 | when an offline payment goes through, and exactly which error comes otherwise |
| Requests.OfflinePaymentMoves | app/services/payment_service.py:256-310 | it takes the value of the picked tokens from the balance, marks exactly them, adds a pending payment, a queue item and the proof |
| Requests.OfflinePaymentKeys | app/services/payment_service.py:233-254 | refused or not, a payment that reaches its tokens uses their keys in order, up to the first destroyed before; no other does |
| Requests.CodeAnswers | app/services/payment_service.py:360-404 | when a code is generated, and exactly which error comes otherwise |
| Requests.CodeLocks | app/services/payment_service.py:395-404 | it takes the value of the tokens from the balance and puts the code on exactly them |
| Requests.RedemptionAnswers | app/services/settlement_service.py:204-228 | a code is invalid exactly if no unspent token carries it, and too small exactly if those that do are worth less than the amount |
| Requests.RedemptionAccepts | app/services/settlement_service.py:230-283 | otherwise it goes through exactly if the ids are new and the value left over fits the payer's allowance |
| Requests.RedemptionRegisters | app/services/settlement_service.py:252-265 | the registry gains exactly the consumed tokens, under the new payment and settlement |
| Requests.RedemptionRecords | app/services/settlement_service.py:285-298 | one succeeded payment is added, of the wallet of the smallest token to the merchant |
| Requests.RedemptionSettles | app/services/settlement_service.py:300-315 | one settlement is added, for that payment, with the fee taken off |
| Requests.RedemptionCredits | app/services/settlement_service.py:317-325 | the payee's online balance grows by the net amount and no other online balance changes |
| Requests.RedemptionLeaves | app/services/settlement_service.py:195-325 | it leaves the sync queue, the top-ups, the keys and the proofs as they were |
| Requests.SettlementAccepts | app/services/settlement_service.py:81-166 | any proof is accepted exactly if the merchant it names submits it in time, its tokens are distinct, named, known and unregistered, its payment is on record and the settlement id is new |
| Requests.SettlementRefuses | app/services/settlement_service.py:81-121 | another merchant gets a mismatch, a late one an expiry, and else the first bad token decides between malformed and double spend; refused proofs change nothing |
| Requests.SettlementAdds | app/services/settlement_service.py:129-166 | exactly the tokens of the proof are registered and settled, its payment succeeds, one settlement is added, and nothing else changes |
| MerchantLock.RunsMoveStatus | app/models.py:189-236 | in every run a transaction's wallet, merchant, amount and tokens stay as recorded; only its status moves |
| MerchantLock.MatchKeptWhen | app/services/settlement_service.py:81-86 | settlements keep naming the merchant and amount of their payments exactly if the accepted proof does, since the lock compares the proof with the submitter only |
| MerchantLock.RunMatchesWhen | app/services/settlement_service.py:81-166 | after any run all settlements match their payments exactly if every accepted proof did |
| MerchantLock.ProofsStayTrue | app/services/payment_service.py:270-297 | emitted proofs name the merchant and the amount of their payments, whatever requests come |
| MerchantLock.SettlementsPayTheMerchant | app/services/settlement_service.py:81-166 | after honest runs every settlement pays the merchant of its payment the amount paid |
| LedgerRuns.BalanceAgreement | app/services/payment_service.py:265-267 | the offline balance is unlocked value plus dust less what was charged twice |
| DoubleCharges.BalancesAgreeWhen | app/services/payment_service.py:184-189 | after an honest run the balance equals unlocked value plus dust exactly if no payment spent a locked token; otherwise it is less |
| PaymentChecks.UnlockedTokensFitWhen | app/services/payment_service.py:402-404 | the balance covers every choice of unlocked tokens exactly if what was charged twice is at most the dust |
| PaymentChecks.CodeSucceedsWhen | app/services/payment_service.py:362-404 | past its guards a code is generated exactly if the chosen tokens and what was charged twice are worth at most all unlocked tokens and the dust |
| LedgerRuns.UnlockedTokensAreCovered | app/services/payment_service.py:402-404 | while nothing was charged twice, the balance covers any choice of unlocked tokens |
| LedgerRuns.CodesPassTheCheck | app/services/payment_service.py:402-404 | while nothing was charged twice in the wallet, the CHECK on its balance stops no code |
| PaymentChecks.PaymentsAreCovered | app/services/payment_service.py:265-267 | while nothing was charged twice, the best payment of an amount that the unlocked tokens can pay is worth at most the balance, whichever tokens it picks |
| PaymentChecks.BestPaymentFitsWhen | app/services/payment_service.py:265-267 | the best payment passes the CHECK exactly if some covering choice is worth at most the balance |
| PaymentChecks.PaymentSucceedsWhen | app/services/payment_service.py:177-310 | past its guards a payment goes through exactly if its id is new, no picked key was destroyed and some covering choice is worth at most the balance |
| PaymentChecks.AbortedPaymentStrands | app/services/payment_service.py:233-267 | a payment refused after signing leaves the database as it was and every picked token unspent without a key |
| PaymentChecks.StrandedTokensNeverPay | app/services/payment_service.py:240-254 | after any run, every payment that picks a token without a key fails |
| Witnesses.DustCannotPay | app/services/payment_service.py:180-267 | four honest requests after which the best payment of 400 is stopped by the CHECK, with nothing charged twice |
| Witnesses.StrandedTokenRedeems | app/services/settlement_service.py:205-265 | after that payment the token without a key still redeems by its code |
| Witnesses.LockedTokenIsPaid | app/services/payment_service.py:184-189 | four honest requests after which the best payment spends a locked token and the balance is too low by its value |
| Witnesses.LockedTokenIsPaidInARun | app/services/payment_service.py:184-189 | the same as an honest run from the empty ledger |
| Witnesses.PaidCodeIsRefused | app/services/settlement_service.py:205-217 | after that payment the code is refused as invalid for the amount it was generated for |
| Witnesses.NextCodeIsStopped | app/services/payment_service.py:362-404 | after that payment the CHECK stops a code for half of the unlocked token that is left |
| Witnesses.RefundExceedsAllowance | app/services/settlement_service.py:271-278 | four honest requests after which a code redeems in full but not in part |
| LedgerRuns.Conservation | app/routers/topups.py:101-104 | balances, locked and spent tokens and online payments add up to top-ups and credits, less double charges |
| DoubleCharges.MoneyIsConservedWhen | app/services/payment_service.py:184-189 | that equation is exact precisely in the runs where no payment spent a locked token |
| EmergencyCodes.GenerationLocksFewest | app/services/payment_service.py:379-393 | taking the largest rows until they cover the amount takes as few as any covering choice |
| EmergencyCodes.FullRedemptionNeedsAll | app/services/settlement_service.py:238-250 | redeeming the generated amount needs every locked row although rows are now taken smallest first |
| EmergencyCodes.EveryRowIsNeeded | app/services/payment_service.py:379-387 | without any one of the rows that generation takes, the others do not cover the amount |
| EmergencyCodes.GeneratedAmountRedeems | app/services/settlement_service.py:195-317 | a fresh code, whatever honest requests follow, redeems its amount exactly if no payment spent one of its tokens; then it consumes every locked token with zero refund, otherwise it finds too little or nothing |
| EmergencyCodes.RedemptionSplits | app/services/settlement_service.py:240-268 | consumed and refunded value add up to the locked value, and the last consumed row was needed |
| EmergencyCodes.RedemptionSucceedsWhen | app/services/settlement_service.py:225-278 | redemption succeeds exactly if the rows cover the amount and the refund fits the allowance |
| EmergencyCodes.RedemptionMovesTokens | app/services/settlement_service.py:252-270 | consumed rows are settled, the others are unlocked, and no token carries the code any more |
| EmergencyCodes.RedemptionRefunds | app/services/settlement_service.py:267-283 | the payer's offline balance grows by the value of the freed rows and no other changes |
| EmergencyCodes.RedeemedOnce | app/services/settlement_service.py:205-217 | after any run without the code being issued again, a redeemed code is refused as invalid |
| SyncDrain.TriggerCompletes | app/services/sync_service.py:63-116 | in agreement a trigger completes the oldest waiting items, as many as its batch allows, and changes no other item |
| SyncDrain.TriggersDrain | app/services/sync_service.py:58-142 | m triggers empty the queue exactly if m is at least the number waiting divided by the batch, rounded up; then every payment has succeeded |
| SyncFilters.DueAreOldestEligible | app/services/sync_service.py:63-87 | with any filter a trigger takes eligible items only, the oldest of them, and as many as the batch allows |
| SyncFilters.FilteredTrigger | app/services/sync_service.py:72-87 | a trigger for one wallet changes no item it did not take, no item or payment of another wallet and no existing registry row; new rows are for this wallet's payments and tokens |
| SyncFilters.UnfilteredTrigger | app/services/sync_service.py:63-71 | without a filter every item that is not completed is eligible |
| SyncFilters.MissingPayment | app/services/sync_service.py:114-124 | an item without its payment counts one attempt more and gives up at the tenth |
| SyncFilters.SettledPayment | app/services/sync_service.py:172-175 | an item of a succeeded payment completes and registers nothing |
| SyncFilters.UnsettledPayment | app/services/sync_service.py:177-207 | any other registers its tokens in order up to the first conflict; without one it completes and its payment succeeds, with one both fail |
| SyncFilters.TakenInOrder | app/services/sync_service.py:92-116 | a batch is processed in the order taken: a first part, then the rest |
| SyncFilters.RecordedIsReported | app/services/sync_service.py:94-113 | the report says synced exactly if the payment had succeeded or meets no conflict, and double spend otherwise |
| SyncFilters.MissingIsReported | app/services/sync_service.py:114-140 | and retryable up to the ninth attempt |
| SyncConflicts.ConflictSticks | app/services/sync_service.py:179-198 | an item that meets a conflict is stuck afterwards: its payment has failed and its first token is registered |
| SyncConflicts.StuckUnlessSettled | app/services/sync_service.py:172-198 | after any step a stuck item is still stuck exactly if the step was not an accepted settlement of its payment |
| SyncConflicts.StuckInRuns | app/services/sync_service.py:172-198 | over any run it stays stuck exactly if no settlement of its payment is accepted |
| SyncConflicts.HonestRunsNeverFree | app/services/settlement_service.py:109-121 | no honest continuation frees it |
| SyncConflicts.EmptyProofFrees | app/services/settlement_service.py:100-149 | a proof without tokens for its payment is accepted and frees it: the next sync completes it |
| SyncConflicts.OnlyStuckItemsStay | app/services/sync_service.py:161-207 | processing a due item changes nothing exactly if it is stuck |
| SyncConflicts.StuckItemsBlock | app/services/sync_service.py:58-104 | a trigger, with any wallet filter and batch, changes nothing exactly if all items it takes are stuck |
| SyncConflicts.ForgedProofIsAccepted | app/services/settlement_service.py:100-149 | settlement accepts a proof that names the tokens of another pending payment, whose sync can then only conflict |
| SyncConflicts.ForgedProofFailsTheSync | app/services/settlement_service.py:100-149 | a trigger that takes that payment fails it, and it stays failed in every honest continuation |
| Witnesses.ForgedProofHappens | app/services/settlement_service.py:100-149 | an honest run after which such a proof is accepted |
| ForgedProofs.AllOrNothingKept | app/services/settlement_service.py:100-149 | an accepted proof keeps every payment all or nothing exactly if it lists all tokens of its own pending payment and none of another |
| ForgedProofs.SettlementMovesSums | app/services/settlement_service.py:123-166 | an accepted proof adds its amount to what is settled and the value of its tokens to what is registered |
| ForgedProofs.SolvencyKept | app/services/settlement_service.py:123-166 | settlements stay covered exactly if amount and value fit together |
| ForgedProofs.EmptyProofIsGuaranteed | app/services/settlement_service.py:97-166 | a proof without tokens is accepted for any payment on record and any amount and registers nothing |
| ForgedProofs.SettlementsKeptWhenUnpaid | app/services/settlement_service.py:150-166 | settlements keep paying different payments exactly if the payment had none |
| ForgedProofs.BalancesKept | app/services/settlement_service.py:138-143 | balances keep agreeing with tokens exactly if the proof settles no unspent token |
| ForgedProofs.SoundnessKept | app/services/settlement_service.py:41-192 | an accepted proof keeps all invariants exactly if these four conditions on the tables hold |
| ForgedProofs.EmittedProofsFit | app/services/payment_service.py:272-310 | proofs that offline payments emitted meet them whenever they are accepted |
| SharedCodes.CodesKeptWhenFresh | app/services/payment_service.py:395-400 | a new code keeps every code within one wallet exactly if no unspent token of another wallet carries it |
| SharedCodes.RefundsBalanceWhen | app/services/settlement_service.py:267-283 | a redemption keeps balances agreeing with tokens exactly if all freed tokens belong to the wallet that gets the refund |
| ForgedProofs.StepIsSoundWhen | app/services/settlement_service.py:41-192 | any legal step keeps all invariants exactly if an accepted proof fits the tables and an issued code is fresh |
| ForgedProofs.RunIsSoundWhen | app/services/settlement_service.py:41-192 | in runs of any legal requests the invariants hold throughout exactly if every accepted proof fits and every issued code is fresh |

## Left out

- Ed25519, SHA-256 and key derivation: signatures and destruction hashes are records of what went into them. Whether
  a payment's proofs verify is not claimed; minting and payment use different secure elements.
- Public keys stored with tokens, ancestry chains and token expiry: no decision modelled here depends on them.
- Shares in hexadecimal form: a plain encoding. Share indices outside 0..255 and negative thresholds in `verify_shares`.
- Ledger.Ledger.CreateTopUp: the throw-away secure element of the minting call is not modelled, and token ids are a parameter; that they are not empty is assumed.
- Ledger.Ledger.CreateWallet: key derivation, the seed's shares and the limit on wallets per customer are not modelled.
- LedgerSteps.Fee: 3% in exact arithmetic, truncated; the floating-point product 0.03 * amount is not modelled.
- LedgerAgreement.Honest: besides emitted proofs it assumes that a new code is carried by no unspent token of another wallet, which random codes make likely and no code checks. `ForgedProofs.RunIsSoundWhen` says what holds without either assumption.
- Ledger.Ledger.SettlePayment: decoding of base64 and JSON; a proof is a record, and whether it has expired is a parameter.
- Ledger.Ledger.TriggerSync: `next_retry_at`, error logs and priorities; every item is queued with priority 5, which every filter admits.
- The database is one value that requests replace table by table; row objects, sessions and statement-level isolation are not modelled, and one request is one atomic step.
- Coins.MintTokens: key generation and ancestry hashes of the minted tokens.
- CoinSelection.SelectTokens: only termination and optimality; the stated running time does not hold of the code.
- Authentication, HTTP error bodies, idempotency keys, caching, events, metrics and logging.
- Upper bounds of the request schemas on amounts: all results hold without them.
