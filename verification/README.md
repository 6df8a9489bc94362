# A verified model of the coinswap, CSR, epochs and authorization-limit logic

This project models, in Dafny, the parts of the chain where money and state are at stake and proves what
they keep over every input and every run:

- **coinswap** - the constant-product exchange (`Amm`), its pool registry and genesis (`PoolRegistry`, `Text`),
  the messages as functions on a state (`Coinswap`), what each message does to every pool (`CoinswapSteps`),
  whole runs (`CoinswapRuns`, `CoinswapLedger`), when messages succeed (`CoinswapProgress`), concrete runs in which
  expected properties fail (`CoinswapStories`) and the keeper that performs the messages step by step
  (`CoinswapKeeper`).
- **csr** - the NFT and contract registry fed by Turnstile events (`CsrRegistry`), which events count and what
  they do (`CsrEvents`), the fee hook (`CsrHook`),
  whole runs of blocks (`CsrRuns`), a run in which fees cannot be settled (`CsrStall`), the genesis
  (`CsrGenesis`) and the keeper over its byte store (`CsrKeeper`).
- **the wire codec** - varints, tags, unknown fields (`Bits`, `Wire`), what the bytes mean (`WireItems`), the
  stored records (`PoolCodec`, `CsrCodec`) and their formats stated apart from the code (`PoolFormat`, `CsrFormat`).
- **epochs** - the per-block timers and their hook trace (`Epochs`, `EpochsKeeper`).
- **the authorization limiter** - the nested-message check (`AuthzLimiter`).

`Basics`, `Arithmetic`, `Decimal` and `Bank` are shared: integer widths, products and floor division,
18-digit decimals, and a bank of balances, supplies and accounts.

Code that works on values is modelled by functions. Code that changes state is modelled by classes and
methods whose postconditions give the new state as a function of the old one; the theorems are about those
functions, so they hold of the methods.

How to read the model:

- A message or transaction that fails leaves the state as it was (the transaction is rolled back);
  `CoinswapKeeper.Keeper.Deliver` and `CsrKeeper.Keeper.RunTx` do the rolling back.
- Amounts are non-negative integers. Where the integer library would panic at 2^256, the message fails.
- A decimal is its numerator over 10^18. `Decimal.ShareIsFloor` shows that the two roundings in
  "decimal times integer, truncated" are one rounding down.
- Messages are signed by user accounts. Escrow addresses are an injective function of the pool
  denomination and nobody holds a key to them; module accounts are the blocked receivers.
- The order in which a key-value store iterates is a parameter; results hold for every order.
- In runs of the CSR module, everything that moves, creates or destroys coins outside the hook is a step of its
  own: fees paid in and refunded, value sent by a transaction before its hook, withdrawals from the Turnstile
  contract, the distribution module emptying the fee collector, inflation. A transaction that the hook reverts is
  a run without the transfers it would have made.
- The hooks of the epochs module receive the new epoch number in both calls: the counter is raised before
  the end-of-epoch hook runs, although the comments in `x/epochs/keeper/hooks.go:17-18` speak of the epoch
  that is ending. The model follows the code.

Six properties one might expect do not hold of the code as it stands. Each has a concrete input that shows it and
the exact condition under which it holds:

- Not every fee on a registered contract can be settled. The bank rejects a coin of zero and the Turnstile
  contract rejects a payment of zero (`contracts/turnstile.sol:149-150`), so the rounded-down share must be more
  than nothing and less than everything. `CsrHook.HookSucceedsIff` gives the exact condition for every transaction
  and `CsrRuns.TransactionCommitsIff` for every point of every run. Shares of one and of zero, which
  `ValidateShares` accepts, and fees whose share is below one coin make every such transaction fail
  (`CsrHook.RoundSharesNeverSettle`); `CsrStall.CallCommitsIff` is a run that ends in one.
- The limit on nested authorizations also counts siblings: six wrappers side by side are refused although nothing
  is nested (`AuthzLimiter.SiblingsCostAsMuchAsNesting`).
- The cap on the standard coin of a pool can be exceeded. `CoinswapLedger.CapHoldsIff` gives the condition on the
  state before the deposit; `CoinswapStories.CapExceeded` is a run in which a new pool holds more than the cap,
  because its escrow account was paid before the pool was created. It holds in every run in which escrow accounts stay
  tidy (`CoinswapLedger.RunRespectsCap`).
- A pool without shares may still hold coins. Escrow accounts stay tidy exactly as long as nobody pays one a coin
  it has no use for and no pool creation burns the last shares of another pool (`CoinswapLedger.RunTidyIff`,
  message by message `CoinswapLedger.ApplyTidyIff`). The latter is possible because the creation fee may be set
  in any denomination, shares included: `CoinswapStories.LastSharesBurned` is such a run.
- The epoch counter follows the clock only for positive durations. Validation rejects only zero; among the timers
  it accepts, exactly those with a positive duration keep the counter law (`Epochs.CounterLawIff`). With a
  negative duration the counter rises with every block (`Epochs.NegativeDurationRunsAway`).
- A valid CSR genesis need not have consistent indexes, because validation looks at the parameters only
  (`CsrGenesis.SharedContractIsAccepted`); `CsrGenesis.ImportAgreesIff` gives the exact condition. What a chain
  exports always satisfies it (`CsrRuns.RunExportsGenesis`).

`dafny verify dfyconfig.toml` checks the whole project.

## Model

| member | source | states |
|---|---|---|
| Amm.SaleYields | x/coinswap/keeper/swap.go:231-237 | selling a yields at least q exactly when a·(1-fee)·(y-q) >= q·x, with no division: pins the sell price completely |
| Amm.SaleKeepsProduct | x/coinswap/keeper/swap.go:231-237 | a sale never drains the paying reserve and never lowers the product of the reserves, for every fee in [0,1) |
| Amm.PurchaseCovers | x/coinswap/keeper/swap.go:241-246 | the buy price is the rounded-down exact price plus one |
| Amm.PurchaseRaisesProduct | x/coinswap/keeper/swap.go:241-246 | a purchase raises the product of the reserves strictly |
| Amm.SplitSaleNeverPaysMore | x/coinswap/keeper/swap.go:231-237 | two sales in a row never pay more than one sale of the sum, both roundings included |
| Amm.PurchaseInvertsSale | x/coinswap/keeper/swap.go:231-246 | selling the quoted buy price always yields at least the quantity quoted for |
| Amm.PurchaseNearLeast | x/coinswap/keeper/swap.go:231-246 | the buy price is at most one above any input that would buy as much |
| Amm.PurchaseOverpaysIff | x/coinswap/keeper/swap.go:241-246 | the buy price is one above the least sufficient input exactly when the exact price is whole |
| Amm.SaleInvertsPurchase | x/coinswap/keeper/swap.go:231-246 | quoting back what a sale paid asks for at most one more than was sold |
| Amm.DepositKeepsShareValue | x/coinswap/keeper/keeper.go:197-205 | a deposit is pro rata to within one unit and lowers neither coin behind a share |
| Amm.RedeemKeepsShareValue | x/coinswap/keeper/keeper.go:287-288 | a redemption pays the rounded-down part, lowers neither coin behind a remaining share, never drains the pool unless all shares go, and then pays exactly everything |
| Amm.DepositThenRedeemNeverGains | x/coinswap/keeper/keeper.go:197-288 | depositing and at once redeeming returns no more of either coin than was paid in |
| Decimal.ShareIsFloor | x/coinswap/keeper/fees.go:17-18 | decimal multiplication with its own rounding, then truncation, is exactly one rounding down |
| Decimal.ShareBounds | x/csr/keeper/evm_hooks.go:93-97 | a rate of at most one takes at most the amount, and all of it only at rate one |
| Bank.SendConserves | x/coinswap/keeper/swap.go:20-28 | a transfer keeps every denomination's balances adding up to its supply |
| Bank.BurnNeedsOnlyBalance | x/coinswap/keeper/fees.go:33-34 | under conservation a burn fails only for want of balance |
| Text.LptDenomRoundTrip | x/coinswap/types/utils.go:29-39 | parsing a pool denomination gives back its number for all 64-bit numbers, and fails for larger ones |
| Text.LptDenomInjective | x/coinswap/types/utils.go:29-31 | distinct numbers have distinct pool denominations |
| PoolRegistry.LookupsAgree | x/coinswap/keeper/pool.go:34-70 | lookup by pool id and lookup by pool denomination find the same records |
| PoolRegistry.NextDenomIsFresh | x/coinswap/keeper/pool.go:17-31 | the next pool denomination is not in use |
| PoolRegistry.CreatePoolKeepsAgreement | x/coinswap/keeper/pool.go:17-31 | creating a pool keeps both indexes and the counter in agreement while the counter fits in 64 bits |
| PoolRegistry.ValidateGenesis | x/coinswap/types/genesis.go:27-74 | the sequential check with its seen-sets and running maximum accepts exactly the genesis states that are free of duplicates, well named and whose sequence is one above the highest number (modulo 2^64) |
| PoolRegistry.MaxSequenceIsMaximum | x/coinswap/types/genesis.go:46-53 | the running maximum is an upper bound that is attained |
| PoolRegistry.LimitIsUnique | x/coinswap/types/params.go:140-162 | a valid list of limits has one limit per denomination: the search finds every entry, wherever it stands |
| PoolRegistry.LimitAllows | x/coinswap/keeper/swap.go:218-226 | in a valid list the search finds a limit of at least n exactly when some entry of that denomination allows n |
| PoolRegistry.ValidGenesisIsFiled | x/coinswap/types/genesis.go:27-74 | after importing a valid genesis both lookups find every listed pool, no other is filed, and the next share denomination is unused |
| PoolRegistry.ExportImportRoundTrip | x/coinswap/keeper/genesis.go:12-43 | the exported genesis is valid and importing it rebuilds both indexes and the sequence, in whatever order pools are listed |
| CoinswapSteps.SwapTrades | x/coinswap/keeper/swap.go:13-216 | every successful order trades through the pool of its token at exactly the price that the reserves it met and the fee in force call for (stated by inequalities on what was paid and received), within the sender's limit and the whitelist limit, moves exactly the two coins, never drains a reserve and never lowers the product |
| CoinswapSteps.CreationFeeSplit | x/coinswap/keeper/fees.go:12-35 | the fee leaves the payer, the tax reaches the collector, exactly the rest is destroyed, the module account keeps nothing |
| CoinswapSteps.AddDeposits | x/coinswap/keeper/keeper.go:119-250 | every successful deposit is of a whitelisted token on fair terms, within the sender's limits, and changes exactly the stated balances, supplies and registry entries |
| CoinswapSteps.RemoveWithdraws | x/coinswap/keeper/keeper.go:253-338 | every successful withdrawal burns the shares for their rounded-down part of both reserves, at least what the sender asked for, and changes nothing else |
| CoinswapSteps.ApplySteps | x/coinswap/keeper/keeper.go:82-338 | every pool under every message: its record stays, its shares stay backed, x·y/l² does not fall; every message but a swap lowers no share's claim; every message but a deposit or withdrawal keeps the share supply and does not lower x·y |
| CoinswapSteps.ApplyConserves | x/coinswap/keeper/keeper.go:82-338 | every message keeps all balances adding up to supply |
| CoinswapSteps.ApplyKeepsInv | x/coinswap/keeper/keeper.go:82-338 | every message keeps the whole invariant: indexes agree, conservation, backing, no stray shares, escrow accounts exist |
| CoinswapRuns.RunKeepsInv | x/coinswap/keeper/msg_server.go:27-152 | the invariant holds in every state of every run, parameter changes included |
| CoinswapRuns.RunExportsValidGenesis | x/coinswap/keeper/genesis.go:29-43 | at every point of every run the exported genesis is valid and importing it undoes the export |
| CoinswapRuns.PoolsPersist | x/coinswap/keeper/pool.go:135-144 | pools are never removed and their records never change |
| CoinswapRuns.ShareValueNeverFalls | x/coinswap/keeper/swap.go:231-246 | over every run that keeps shares outstanding, with fees changing in between, x'·y'·l² >= x·y·l'² |
| CoinswapRuns.SwapsNeverLowerProduct | x/coinswap/keeper/swap.go:231-246 | over every run without deposits and withdrawals, fee changes and transfers in between, x·y never falls and the share supply never changes |
| CoinswapRuns.SwapsNeverDrain | x/coinswap/keeper/swap.go:53-61 | no such run lowers one reserve of a pool with shares without raising the other, and both stay positive |
| CoinswapRuns.LiquidityRunsKeepClaims | x/coinswap/keeper/keeper.go:197-288 | no run without swaps, parameter changes and transfers included, lowers what any number of shares would be paid of either coin |
| CoinswapRuns.AddThenRemoveNeverGains | x/coinswap/keeper/keeper.go:119-338 | adding to a pool with shares and at once removing the shares received leaves the sender with no more of either coin |
| CoinswapRuns.WithdrawingAllEmptiesPool | x/coinswap/keeper/keeper.go:281-288 | withdrawing the whole supply pays out exactly all of both reserves |
| CoinswapRuns.NoDivisionByZero | x/coinswap/keeper/keeper.go:177-209 | in every state satisfying the invariant no message divides by zero, and a deposit never misses an escrow account |
| CoinswapRuns.GenesisSatisfiesInv | x/coinswap/types/genesis.go:18-24 | a chain without pools and shares satisfies the invariant |
| CoinswapProgress.LptDenomIsValid | x/coinswap/types/utils.go:28-31 | every 64-bit pool number gives a valid denomination |
| CoinswapProgress.WithdrawalSucceedsIff | x/coinswap/keeper/keeper.go:253-338 | a holder can always withdraw: it succeeds exactly when the denomination is that of a pool, the sender holds the shares, the products fit in 256 bits and both unrounded parts reach the sender's minimums; the pool itself can never fail to pay |
| CoinswapProgress.SaleSucceedsIff | x/coinswap/keeper/swap.go:38-120 | a sale succeeds exactly when the pool exists with both reserves, the products fit in 256 bits and the one price there is suits the sender's minimum and means and the whitelist limit; the pool can always pay out |
| CoinswapProgress.PurchaseSucceedsIff | x/coinswap/keeper/swap.go:129-216 | the same for a purchase, with the sender's maximum |
| CoinswapProgress.SwapSucceedsIff | x/coinswap/keeper/keeper.go:82-116 | an order succeeds exactly when both coins are valid, positive, distinct, no shares and one of them standard, the recipient is no module account, and the sale or purchase suits |
| CoinswapProgress.DepositSucceedsIff | x/coinswap/keeper/keeper.go:119-250 | a deposit into an existing pool succeeds exactly when the token is valid, whitelisted, no share and not standard, the pro rata terms (without division) are within the cap, 256 bits and the sender's limits, and the sender can pay them |
| CoinswapProgress.CreationFeeSucceedsIff | x/coinswap/keeper/fees.go:12-35 | the creation fee is taken exactly when the creator holds it: neither the tax nor the burn can fail |
| CoinswapProgress.FirstDepositSucceedsIff | x/coinswap/keeper/keeper.go:119-166 | the first deposit succeeds exactly when the token is valid, whitelisted, no share and not standard, the amount is within the cap and the sender's minimum, and the sender can pay fee, standard coin and token together, also where the fee is charged in one of the two |
| CoinswapProgress.ApplySucceedsIff | x/coinswap/keeper/msg_server.go:27-152 | for every message of every kind, parameter changes included, everything it needs to succeed and nothing else |
| CoinswapLedger.RunAccounted | x/coinswap/keeper/keeper.go:82-338 | over every run the supply of every denomination is what it was, plus the shares minted in it, less the shares withdrawn and the creation fees burned in it; the module account holds what it held at the start |
| CoinswapLedger.OrdinaryCoinsOnlyBurn | x/coinswap/keeper/fees.go:12-35 | over every run the supply of a denomination that is no share falls by exactly the creation fees burned in it |
| CoinswapLedger.CapHoldsIff | x/coinswap/keeper/keeper.go:177-209 | after a deposit the standard reserve is within the cap exactly when the pool had shares or its escrow leaves room |
| CoinswapLedger.LastSharesLeaveCoins | x/coinswap/keeper/fees.go:12-35 | a creation fee that is the whole share supply of another pool leaves that pool without shares while its escrow account still holds both coins |
| CoinswapLedger.ApplyTidyIff | x/coinswap/keeper/keeper.go:82-338 | for every message: escrow accounts stay free of useless coins exactly when it pays none in and, creating a pool, does not burn the last shares of another |
| CoinswapLedger.RunTidyIff | x/coinswap/keeper/keeper.go:82-338 | they stay so all along a run exactly when every successful message of it is of that kind where it is run |
| CoinswapLedger.RunRespectsCap | x/coinswap/keeper/keeper.go:155-209 | in such runs every successful deposit leaves the standard reserve within the cap |
| CoinswapStories.CapCanBeExceeded | x/coinswap/keeper/keeper.go:155-166 | from every sound state with free pool creation, paying the next escrow account the cap and then creating the pool both succeed and leave the reserve above the cap |
| CoinswapStories.CapExceeded | x/coinswap/keeper/keeper.go:155-166 | a concrete run from a fresh chain that does so |
| CoinswapStories.LastSharesCanBurn | x/coinswap/types/params.go:104-114 | from every sound state in which a user holds all shares of a pool, setting the fee to those shares and then creating a pool both succeed, and the pool's coins stay behind without shares |
| CoinswapStories.LastSharesBurned | x/coinswap/types/params.go:104-114 | a concrete run from a fresh chain that does so |
| CoinswapKeeper.Keeper.SetPool | x/coinswap/keeper/pool.go:135-144 | afterwards the lookup by id and the lookup by share denomination both find the pool, and every other entry of either index is as before |
| CoinswapKeeper.Keeper.CreatePool | x/coinswap/keeper/pool.go:17-31 | files the new pool under the current sequence and advances it modulo 2^64 |
| CoinswapKeeper.Keeper.GetAllPools | x/coinswap/keeper/pool.go:47-57 | lists every pool once, in iteration order |
| CoinswapKeeper.Keeper.InitGenesis | x/coinswap/keeper/genesis.go:12-27 | accepts exactly the valid genesis states whose parameters the parameter store accepts, and rebuilds the registry they describe |
| CoinswapKeeper.Keeper.ExportGenesis | x/coinswap/keeper/genesis.go:30-43 | exports parameters, standard denom, all pools and the sequence |
| CoinswapKeeper.Keeper.SwapCoins | x/coinswap/keeper/swap.go:13-29 | pays the pool, then the recipient |
| CoinswapKeeper.Keeper.TradeExactInputForOutput | x/coinswap/keeper/swap.go:38-120 | performs a sale at the quoted price under the sender's minimum and the whitelist limit; the recipient gets exactly the amount returned |
| CoinswapKeeper.Keeper.TradeInputForExactOutput | x/coinswap/keeper/swap.go:129-216 | performs a purchase at the quoted price under the sender's maximum and the whitelist limit; the sender pays exactly the amount returned |
| CoinswapKeeper.Keeper.GetMaximumSwapAmount | x/coinswap/keeper/swap.go:218-226 | the search loop fails exactly for denominations that are not listed; in a valid list it returns the amount of every entry of that denomination, wherever it stands |
| CoinswapKeeper.Keeper.Swap | x/coinswap/keeper/keeper.go:82-116 | checks the order and performs it as a sale or a purchase |
| CoinswapKeeper.Keeper.DeductPoolCreationFee | x/coinswap/keeper/fees.go:12-35 | collects the fee, passes on the tax, burns the rest |
| CoinswapKeeper.Keeper.DepositAndMint | x/coinswap/keeper/keeper.go:227-250 | moves both coins in and the new shares out |
| CoinswapKeeper.Keeper.AddLiquidity | x/coinswap/keeper/keeper.go:119-225 | performs a deposit, creating the pool if there is none, and returns the shares minted |
| CoinswapKeeper.Keeper.BurnAndWithdraw | x/coinswap/keeper/keeper.go:322-338 | burns the shares and pays both coins |
| CoinswapKeeper.Keeper.RemoveLiquidity | x/coinswap/keeper/keeper.go:253-320 | performs a withdrawal and returns the coins paid |
| CoinswapKeeper.Keeper.Deliver | x/coinswap/keeper/msg_server.go:27-152 | runs a message to its specified new state or error, and on an error restores everything |
| Bits.AndMask | x/coinswap/types/coinswap.pb.go:507 | masking low bits is the remainder by a power of two |
| Bits.OrDisjoint | x/coinswap/types/coinswap.pb.go:847 | or-ing bits above a cut onto bits below it is addition |
| Wire.SovIsLength | x/coinswap/types/coinswap.pb.go:596-598 | the bit-length formula for the size of a varint is the number of bytes written |
| Wire.EncodeVarintAt | x/coinswap/types/coinswap.pb.go:503-513 | writes exactly the varint before the offset and leaves the rest of the buffer alone |
| Wire.ReadVarint | x/coinswap/types/coinswap.pb.go:838-851 | the shift-and-or loop reads what the specification reads, with its overflow and end-of-data errors |
| Wire.VarintFromDecodes | x/coinswap/types/coinswap.pb.go:503-513 | reading undoes writing from any point of the loop |
| Wire.VarintRoundTrip | x/coinswap/types/coinswap.pb.go:838-851 | every 64-bit number survives being written and read back |
| Wire.TagRoundTrip | x/coinswap/types/coinswap.pb.go:852-859 | a tag byte is read back as its field number and wire type |
| Wire.PayloadRoundTrip | x/coinswap/types/coinswap.pb.go:865-892 | a length-delimited payload is read back whole |
| Wire.Skip | x/coinswap/types/coinswap.pb.go:1261-1338 | the index-and-depth loop computes the specified end or error and stops on every input |
| WireItems.VarintForm | x/coinswap/types/coinswap.pb.go:503-513 | a varint is written as the shortest chain of seven-bit groups, least significant first, that makes up the number |
| WireItems.VarintMeans | x/coinswap/types/coinswap.pb.go:838-851 | any bytes: a chain of at most ten is read as the number its groups make up modulo 2^64, anything longer overflows, anything unfinished ends too early |
| WireItems.PayloadMeans | x/coinswap/types/coinswap.pb.go:865-892 | a payload is taken exactly when its announced length lies within the data; no wrap-around lets another through |
| WireItems.TagMeans | x/coinswap/types/coinswap.pb.go:852-859 | number and kind of every tag, and exactly which tags are refused |
| WireItems.SkipEnds | x/coinswap/types/coinswap.pb.go:1261-1338 | skipping a well-formed item of any kind, groups within groups included, ends exactly after it |
| WireItems.SkipRefuses | x/coinswap/types/coinswap.pb.go:1315-1329 | an end of group that is not open and the two kinds that do not exist are refused |
| PoolCodec.SizeIsLength | x/coinswap/types/coinswap.pb.go:544-571 | the announced size is the number of bytes written |
| PoolCodec.MarshalToSizedBuffer | x/coinswap/types/coinswap.pb.go:383-424 | fills the end of the buffer backwards with exactly the encoding and leaves the front alone |
| PoolCodec.Marshal | x/coinswap/types/coinswap.pb.go:368-376 | returns the encoding, of the announced size |
| PoolCodec.Unmarshal | x/coinswap/types/coinswap.pb.go:832-1041 | the tag loop stops on every byte sequence, never reads outside it, and returns the decoded record or the specified error |
| PoolCodec.RoundTrip | x/coinswap/types/coinswap.pb.go:383-1041 | every pool record survives being stored and read back into an empty record |
| PoolFormat.FieldStandsAt | proto/canto/coinswap/v1/coinswap.proto:24-34 | the stored bytes: field number k, unless empty, stands after all fields of lower number as the byte 8k+2, its length and its bytes, and nothing else is stored |
| PoolFormat.ReadsLast | x/coinswap/types/coinswap.pb.go:832-1041 | any list of items in any order: each field is the last text given under its number, unknown items of every kind are passed over |
| PoolFormat.RefusesOtherKinds | x/coinswap/types/coinswap.pb.go:832-1041 | the first item of a known number that is no text is an error |
| CsrCodec.Size | x/csr/types/csr.pb.go:185-206 | the announced size is the number of bytes written |
| CsrCodec.WriteContracts | x/csr/types/csr.pb.go:162-170 | the backwards loop writes all contracts in order in front of what is already there |
| CsrCodec.MarshalToSizedBuffer | x/csr/types/csr.pb.go:137-172 | fills the end of the buffer backwards with exactly the encoding and leaves the front alone |
| CsrCodec.Marshal | x/csr/types/csr.pb.go:122-130 | returns the encoding |
| CsrCodec.Unmarshal | x/csr/types/csr.pb.go:214-367 | the tag loop stops on every byte sequence and returns the decoded record or the specified error |
| CsrCodec.RoundTrip | x/csr/types/csr.pb.go:137-367 | every record with any number of contracts of any length survives being stored and read back |
| CsrFormat.ContractStandsAt | proto/canto/csr/v1/csr.proto:11-24 | contract i stands after the contracts before it, under tag 0x0A, as its length and its bytes |
| CsrFormat.NumbersStandAt | proto/canto/csr/v1/csr.proto:11-24 | then id under 0x10 and count under 0x18 unless zero, then always the revenue under 0x22 as decimal text, and nothing else |
| CsrFormat.DecimalText | x/csr/types/csr.pb.go:139-148 | the revenue text is the decimal digits of the number, without leading zeros |
| CsrFormat.ReadsAll | x/csr/types/csr.pb.go:214-367 | any list of items in any order: contracts are all texts under 1 in order, id and count the last numbers under 2 and 3, revenue the last number written out under 4, unknown items passed over |
| CsrFormat.RefusesOthers | x/csr/types/csr.pb.go:214-367 | the first item of the wrong kind, or revenue that is no number, is an error of that sort |
| CsrRegistry.Validate | x/csr/types/csr.go:22-41 | accepts exactly the records with at least one contract, all of them non-zero hexadecimal addresses and none twice |
| CsrRegistry.AddressForms | x/csr/types/csr.go:22-28 | contract addresses are forty hexadecimal digits, bare or after 0x or 0X, not all zero, and nothing else |
| CsrRegistry.IndexIsExact | x/csr/keeper/csr.go:71-89 | a contract maps to an NFT exactly when that NFT's record lists it, and no record lists a contract twice |
| CsrRegistry.SetCsrKeepsAgreement | x/csr/keeper/csr.go:71-89 | storing a record keeps index and records in agreement |
| CsrRegistry.RegisterIsRecorded | x/csr/keeper/event_handler.go:16-50 | a register event is acted on exactly when contract and NFT are new and the contract has code; it then adds one record and one index entry and nothing else |
| CsrRegistry.AssignIsRecorded | x/csr/keeper/event_handler.go:57-85 | an assign event is acted on exactly when the contract is new and the NFT exists; it then appends the contract and indexes it and nothing else |
| CsrRegistry.ProcessKeepsAgreement | x/csr/keeper/evm_hooks.go:129-163 | processing any list of logs keeps index and records in agreement |
| CsrEvents.EventIsHandled | x/csr/keeper/event_handler.go:16-105 | every kind of event: recorded with its own effect, refused, or a panic, and exactly when |
| CsrEvents.EventsAreRecorded | x/csr/keeper/evm_hooks.go:129-163 | the events acted on are the Turnstile's own, in order, up to the first refused one; the refused one and all later ones have no effect |
| CsrEvents.ForeignLogsDoNothing | x/csr/keeper/evm_hooks.go:136-144 | a log without topics or of another address can be struck from the list without changing the result |
| CsrEvents.EntriesComeFromLogs | x/csr/keeper/evm_hooks.go:129-163 | an index entry appears only if a log of the Turnstile registers or assigns that contract to that NFT, a record only if one registers that NFT, and nothing that was there is lost |
| CsrHook.SettleFeeEffect | x/csr/keeper/evm_hooks.go:52-127 | gas used times gas price leaves the collector, the rounded-down share reaches the Turnstile, the rest is destroyed, no other balance or supply changes, and exactly the called contract's record is credited |
| CsrHook.RecordIsAlwaysFound | x/csr/keeper/evm_hooks.go:88-91 | the case "NFT found but CSR not" is unreachable |
| CsrHook.DistributionSucceedsIff | x/csr/keeper/evm_hooks.go:93-126 | a collected fee is distributed exactly when its share is at least one coin and leaves at least one, the Turnstile accepts, and the record has room |
| CsrHook.HookSucceedsIff | x/csr/keeper/evm_hooks.go:42-127 | the exact condition for the hook to let any transaction commit |
| CsrHook.RoundSharesNeverSettle | x/csr/types/params.go:54-76 | with a share of one, of zero, or a fee whose share is below one coin, no transaction that spends gas on a registered contract commits |
| CsrHook.HookConserves | x/csr/keeper/evm_hooks.go:42-127 | the hook keeps all balances adding up to supply |
| CsrHook.HookEffect | x/csr/keeper/evm_hooks.go:42-127 | everything a committed transaction does: the outcome that its gas, price, called contract (after its own events) and the share in force call for, and exactly that outcome, on top of its events, on every balance, every supply, every record and the index |
| CsrRuns.RunKeepsAgreement | x/csr/keeper/csr.go:71-89 | index and records agree at every point of every run |
| CsrRuns.RunEntriesComeFromLogs | x/csr/keeper/evm_hooks.go:129-163 | over every run, a contract newly in the index is there because some transaction carried a Turnstile log that registers or assigns it to that very NFT |
| CsrRuns.RunConserves | x/csr/keeper/evm_hooks.go:42-127 | balances add up to supply at every point of every run |
| CsrRuns.TransactionCommitsIff | x/csr/keeper/evm_hooks.go:42-127 | at every point of every run, exactly when the next transaction commits |
| CsrRuns.RunAccounts | x/csr/keeper/evm_hooks.go:42-127 | over every run, for every account and denomination: the balance is what it was plus what others moved, less all fees taken if it is the collector, plus all shares if it is the Turnstile; the supply falls, beyond what others created and destroyed, by exactly fees less shares |
| CsrRuns.ModuleKeepsNothing | x/csr/keeper/evm_hooks.go:61-117 | where only the hook uses the module account, it holds what it held, in every denomination |
| CsrRuns.RunBooks | x/csr/keeper/evm_hooks.go:119-124 | over every run each NFT's revenue is the sum of its rounded-down shares and its counter the number of its transactions modulo 2^64; all revenue is all shares |
| CsrRuns.FeesAreRevenueOrBurned | x/csr/keeper/evm_hooks.go:93-121 | from the empty registry, gas used times gas price of all charged transactions is all revenue on the books plus all supply lost beyond what others created and destroyed |
| CsrRuns.RunExportsGenesis | x/csr/genesis.go:33-49 | at every point of every run the exported genesis is valid and a fresh chain that imports it has exactly the state of the run |
| CsrRuns.TransactionsFindTurnstile | x/csr/module.go:171-187 | where parameters change only between blocks, every transaction of an enabled module finds the Turnstile |
| CsrRuns.TurnstileIsSetOnce | x/csr/module.go:171-187 | once set, the Turnstile address never changes |
| CsrRuns.EnabledMidBlockPanics | x/csr/keeper/evm_hooks.go:129-134 | enabled without a Turnstile, every transaction panics |
| CsrStall.CallCommitsIff | x/csr/keeper/evm_hooks.go:93-117 | a run that registers a contract and calls it for a fee of five: the call commits exactly when the share is below one and at least a fifth |
| CsrGenesis.ExportImportRoundTrip | x/csr/genesis.go:13-49 | whatever order the records are listed in, importing an export into a fresh chain gives the state exported |
| CsrGenesis.ImportAgreesIff | x/csr/types/genesis.go:19-23 | imported records agree with the index exactly when those that stay are valid and share no contract, and whichever record lists a contract last, the record that stays under its id lists it too |
| CsrGenesis.SharedContractIsAccepted | x/csr/types/genesis.go:19-23 | two valid records listing one contract pass validation and break the agreement |
| CsrKeeper.LittleEndianRoundTrip | x/csr/keeper/csr.go:110-120 | a number survives being written and read as little-endian bytes |
| CsrKeeper.LittleEndianByte | x/csr/keeper/csr.go:110-115 | byte j holds bits 8j to 8j+7 |
| CsrKeeper.Keeper.GetCSR | x/csr/keeper/csr.go:16-29 | decodes exactly the stored record, and finds every stored record |
| CsrKeeper.Keeper.GetNFTByContract | x/csr/keeper/csr.go:56-65 | returns exactly the indexed NFT |
| CsrKeeper.Keeper.SetCSR | x/csr/keeper/csr.go:71-89 | writes the encoded record and points every contract at it; fails only if the record cannot be allocated |
| CsrKeeper.Keeper.ValidateContract | x/csr/keeper/event_handler.go:90-105 | accepts exactly the unregistered addresses that hold code |
| CsrKeeper.Keeper.RegisterEvent | x/csr/keeper/event_handler.go:16-50 | performs a register event or leaves everything unchanged |
| CsrKeeper.Keeper.UpdateEvent | x/csr/keeper/event_handler.go:57-85 | performs an assign event or leaves everything unchanged |
| CsrKeeper.Keeper.ProcessLogs | x/csr/keeper/evm_hooks.go:129-163 | runs the event loop to its specified result, which `CsrEvents` pins; panics without a Turnstile |
| CsrKeeper.Keeper.PostTxProcessing | x/csr/keeper/evm_hooks.go:42-127 | performs the whole hook to its specified new state or failure |
| CsrKeeper.Keeper.RunTx | x/csr/keeper/evm_hooks.go:42-127 | reverts everything if the hook fails |
| CsrKeeper.Keeper.BeginBlock | x/csr/module.go:171-187 | afterwards an enabled module has its Turnstile, an address that was set stays, and a disabled module is left alone |
| CsrKeeper.Keeper.GetAllCSRs | x/csr/keeper/csr.go:32-52 | decodes every stored record once, in iteration order |
| CsrKeeper.Keeper.ExportGenesis | x/csr/genesis.go:33-49 | exports parameters, all records and the Turnstile address |
| CsrKeeper.Keeper.InitGenesis | x/csr/genesis.go:13-31 | stops the chain exactly for parameters or records the stores cannot take, and otherwise stores everything the genesis lists |
| Epochs.TickFollowsTime | x/epochs/keeper/abci.go:20-51 | one block moves a running timer one epoch closer to the block's time and no further, without drift |
| Epochs.RunStaysOnSchedule | x/epochs/types/epoch_info.go:10-20 | over every run of nondecreasing times: nothing before the start time, then start time plus (n-1) durations exactly, never ahead of time |
| Epochs.CounterLaw | x/epochs/keeper/abci.go:20-51 | after each later block the counter is min(n+1, max(1, ceil((t-start)/duration))) |
| Epochs.CatchesUp | x/epochs/keeper/abci.go:20-51 | while the target stays put, k blocks bring the counter to min(n+k, target) |
| Epochs.NegativeDurationRunsAway | x/epochs/types/epoch_info.go:16-37 | a timer that passes validation with a negative duration rises with every block |
| Epochs.CounterLawIff | x/epochs/types/epoch_info.go:23-37 | among the timers that pass validation, exactly those with a positive duration keep the counter law on every run |
| Epochs.HeightOfOpeningBlock | x/epochs/keeper/abci.go:27-51 | the stored height is that of the block that opened the current epoch |
| Epochs.TimersAreIndependent | x/epochs/keeper/epoch_infos.go:38-57 | in the store every timer runs exactly as it would alone |
| Epochs.HooksHearScript | x/epochs/keeper/hooks.go:19-31 | every hook has heard of each timer exactly Before(1), After(2), Before(2), ... up to its current epoch, at most one change per block |
| EpochsKeeper.Keeper.CallHooks | x/epochs/keeper/hooks.go:19-31 | calls every hook once, in order |
| EpochsKeeper.Keeper.StepTimer | x/epochs/keeper/abci.go:20-64 | steps one timer, leaves all others alone and appends its hook calls |
| EpochsKeeper.Keeper.BeginBlocker | x/epochs/keeper/abci.go:15-66 | ticks every timer once, in any iteration order |
| EpochsKeeper.Keeper.InitGenesis | x/epochs/genesis.go:14-26 | stores every genesis timer with missing start times and all heights filled in, one after the other |
| EpochsKeeper.LastEntryWins | x/epochs/genesis.go:14-26 | of timers listed under the same identifier the last one is stored as listed, with the block's height, and with the block's time if its start time is missing |
| EpochsKeeper.ValidateGenesis | x/epochs/types/genesis.go:40-54 | the sequential check accepts exactly the lists without repeated identifiers whose timers are all valid |
| AuthzLimiter.Decorator.IsDisabledMsg | app/ante/cosmos/authz.go:95-103 | finds exactly the disabled types |
| AuthzLimiter.Decorator.CheckDisabledMsgs | app/ante/cosmos/authz.go:58-91 | accepts exactly the messages that are harmless at every path into the tree and whose level-plus-cost stays below the limit |
| AuthzLimiter.Decorator.AnteHandle | app/ante/cosmos/authz.go:44-49 | accepts a transaction exactly when no path leads to something undecodable, a grant of a disabled type or a disabled type with a wrapper above it, and no wrapper has five or more others before it and above it |
| AuthzLimiter.HarmlessIff | app/ante/cosmos/authz.go:62-88 | messages are refused for what they are exactly when such an offence can be pointed at by a path |
| AuthzLimiter.PlainMessages | app/ante/cosmos/authz.go:83-88 | messages that are neither wrappers nor grants cost nothing and are let through, disabled types included |
| AuthzLimiter.CostFitsIff | app/ante/cosmos/authz.go:58-70 | the cost fits exactly when every wrapper, counting those before it in its list and in the lists above, is entered below the limit |
| AuthzLimiter.CostBoundsExecs | app/ante/cosmos/authz.go:58-91 | messages of cost c hold fewer than 2^c wrappers and no chain longer than c |
| AuthzLimiter.AcceptedMessages | app/ante/cosmos/authz.go:44-91 | an accepted transaction has at most 31 wrappers in all, chains of at most 5, no disabled type inside a wrapper and no grant of one at any depth |
| AuthzLimiter.BoundsAreTight | app/ante/cosmos/authz.go:58-91 | both bounds are attained at every cost |
| AuthzLimiter.SiblingsCostAsMuchAsNesting | app/ante/cosmos/authz.go:60-70 | n harmless wrappers side by side, nothing nested, are accepted exactly when n is at most 5 |

## Left out

- Deadlines, address text (bech32), event emission, logging, telemetry, queries and gateways: no effect on the state proved about.
- Hashing: escrow addresses are taken to be an injective function of pool denominations, disjoint from user accounts.
- The bank's own arithmetic limits, permissions and vesting: the bank is balances, supplies and accounts with the stated effects.
- Pools in the coinswap registry are kept as records; that their stored bytes give the same records back is the separate theorem about the pool codec.
- EVM execution, event unpacking and the Turnstile contract: event data, and whether the contract accepts a payment other than zero, are inputs; an accepted payment moves exactly the share. A failed deployment, which stops the chain, is not modelled.
- CsrCodec.Unmarshal: refuses signs, base prefixes and underscores in the text of the revenue, which the integer reader accepts; only plain digits are ever written.
- PoolRegistry.ValidateGenesis: does not check the text form of escrow addresses, because addresses are not modelled as text.
- The other generated messages (parameters, genesis, transactions, queries): they repeat patterns already modelled.
- Time arithmetic is unbounded: saturation of very large durations is not modelled.
- Bit operations are defined on non-negative integers rather than machine words; truncation to 64 and 32 bits is written out where it happens.
- Application wiring, command line, simulation, upgrades, and the modules whose keepers are not present in full: only easy claims.
