# Summerpoem verification model

Summerpoem is a proof-of-work chain of unspent outputs. This project models its
consensus core in Dafny and proves what that core is for: the supply never
passes its cap, the incremental chain state is always what a full replay would
give, a mined template always connects, and every encoding is canonical.  For block
sync it proves exactly when it ends on the heavier chain, which is not always.

`dafny verify dfyconfig.toml` checks everything.

## How the modules fit together

- `Prelude`, `LittleEndian`, `Arith`: machine integers, results, shifts. Dafny
  integers are unbounded, so 64- and 32-bit widths, wrap-around and checked
  additions are written out where the program has them.
- `Emission`, `Asert`, `Cubic`, `Compact`, `Median`, `Merkle`: consensus arithmetic and the
  commitment tree.
- `Tx`, `Ledger`, `Conservation`, `Unspent`, `Joint`: transactions, what one block
  does to the unspent outputs, and what whole chains conserve. `BlockRules` and
  `Refusals` state the rules of transactions, blocks and headers at once, as
  if-and-only-ifs, and what each error says.
- `Tree`, `TreeProofs`, `Reload`, `Repeats`, `Orders`: the block tree and the simple rule for growing
  it, which replays the whole candidate chain and keeps no incremental state;
  runs of that rule; rebuilding a state from its own blocks; blocks that repeat a
  transaction; the order of arrival.
- `Work`, `Retarget`: what a target is worth and which branch wins by it; the
  retarget as a rule about the parent's time and height.
- `Genesis`: the genesis block and when a node starts from it.
- `Chain`, `Restore`, `FileRestart`: the node's mutable chain state. Its fast path, its
  reorganisation and its rollback are proved to have exactly the outcomes of the
  simple rule.  Starting again from saved blocks, and from their bytes.
- `Protocol`, `Locator`, `Sync`, `SyncRuns`, `Deliveries`, `Node`: block locators, the message handlers as
  functions, runs of the exchange over two first-in first-out channels, and the
  node whose methods are those handlers.
- `Nonce`, `Miner`, `Mempool`, `Fees`: nonce search, block templates, the pool and
  what it is paid.
- `Wallet`: payments from a wallet's own outputs.
- `Encode`, `Codec`, `CodecMethods`, `Preimages`, `Wire`, `Store`: bytes. A grammar
  on byte strings, the printers, and the readers and writers that work in place.
  `Layout` gives the formats by offset.
- `Pow`, `PowShape`, `PowCheck`: the memory-hard hash, what it does to its words and
  what it binds, and its check by the node.

## Modelling choices

- Hashes in the ledger are terms: `Sha3(message)` is a free constructor over the
  message being hashed, so distinct messages have distinct hashes and none is
  zero. `Preimages` shows that this is what the bytes support: the tagged byte
  strings are injective, and terms are equal exactly when hashes are, provided
  SHA3-256 shows no collision among the messages in play.
- Signature verification, public-key hashing, SHAKE-256 and, in the ledger, the
  proof-of-work hash are arbitrary functions. Only the wallet assumes that what a
  wallet key signs verifies. `Pow` defines the proof-of-work hash in full over
  SHAKE and SHA3.
- Cumulative work is unbounded (the program adds 256-bit integers without a
  check), and so are heights and height-plus-maturity sums.
- Consensus parameters are arbitrary within what every shipped network satisfies:
  `pow_limit` in [1, 2^255), positive `asert_tau` and epoch length, block interval
  below 2^46, block size limit below 2^32.
- `Arith.Times` and `Arith.Quot` are products and quotients defined by recursion and
  proved equal to the built-in ones; they keep the solver linear.
- The clock enters as a parameter (`now`), and map iteration order is arbitrary.

## Where the documentation and the code differ

- WHITEPAPER.md:236 gives R0 = 1,384,578,109. The code's quotient is 1,384,578,107;
  the larger value times M would pass the cap. The model follows the code.
- crates/net/src/message.rs:160-161 says truncated messages still fail to decode.
  A greeting cut within its last eight bytes decodes with nonce zero;
  `Wire.Truncated` gives the exact condition.

## Where the code falls short

Each of these is proved, with the input that shows it and the condition under which
the code does what it is for.

- Imitated side blocks. The duplicate guard (crates/node/src/chain.rs:497-503) sees a
  block only when it would become the tip, while an odd transaction list and the same
  list with its last entry repeated share their roots. A side block can therefore be
  stored with a transaction repeated; the genuine block is then refused as a
  duplicate (`Repeats.RepeatedCopyStored`) and nothing above the copy can become the
  tip (`Repeats.NothingAboveRepeats`). In block sync the honest peer that offers the
  heavier chain is punished for it (`SyncRuns.BreaksOff`).
- Forks deeper than one round. Requests are repeated with the locator of the active
  chain, so after a round whose last block does not outweigh the tip the same blocks
  are offered again, none of them is new, and the exchange falls silent
  (`SyncRuns.Stalls`). `SyncRuns.SyncOutcome`
  puts both conditions together: sync ends on the heavier chain if and only if the
  first round advances and no held copy of the peer's blocks repeats a transaction.
- A zero payment. The wallet builds a payment of amount zero and the node refuses it
  (`Wallet.PaymentMeaning`).
- Large transactions. The consensus rules accept more outputs in one transaction than
  the decoder reads back, so a state within the consensus limits can be saved and not
  load (`FileRestart.WideGenesisUnreadable`). `Store.LoadsExactly` gives the exact
  condition.

## Model

| member | source | states |
|---|---|---|
| Emission.PowQ96Loop | crates/core/src/emission.rs:22-32 | the square-and-multiply loop computes the fixed-point power and never leaves 2^96, so no 256-bit product overflows |
| Emission.PowQ96Bounds | crates/core/src/emission.rs:18-32 | for every height h, 2^96·b^h − 2h ≤ pow_q96(base_q96(), h) ≤ 2^96·b^h with b = (M−1)/M: all floors together lose at most 2h |
| Emission.RewardBelowCurve | crates/core/src/emission.rs:35-39 | the reward never exceeds the exact curve R0·b^h; `Emission.RewardAboveCurve` is the other half |
| Emission.RewardAboveCurve | crates/core/src/emission.rs:35-39 | and at every height it is above R0·b^h − R0·2h/2^96 − 1: only the flooring is lost |
| Emission.RewardAtMostR0 | crates/core/src/emission.rs:35-39 | every reward is at most R0 = 1,384,578,107 |
| Emission.RewardNonincreasing | crates/core/src/emission.rs:35-39 | the reward never rises from one height to the next, at any height, in spite of the floors |
| Emission.RewardEnds | crates/core/src/emission.rs:35-39 | the reward is zero from height 31·M on |
| Emission.RewardSumBelowCurve | crates/core/src/emission.rs:3-6 | every partial sum is at most R0·M·(1 − b^n) |
| Emission.RewardSumAboveCurve | crates/core/src/emission.rs:3-6 | every partial sum is above R0·M·(1 − b^n), less one unit and the power's flooring error a block |
| Emission.RewardSumCapped | crates/core/src/emission.rs:3-13 | total issuance is at most R0·M, which is at most the supply cap, which fits 64 bits |
| Asert.NoI128Overflow | crates/core/src/asert.rs:26-39 | every 128-bit intermediate is in range for all 64-bit heights and times once the interval is below 2^46 |
| Asert.ClampsInvisible | crates/core/src/asert.rs:43-58 | the shift clamp and the early overflow return never change the result: it is the exponential curve cut to [1, limit] |
| Asert.FactorRange | crates/core/src/asert.rs:33-39 | the cubic stays between 1.0 and 2.0 over the whole fraction range |
| Cubic.NearestFactor | crates/core/src/asert.rs:33-39 | the factor is 65536 plus the nearest integer to the cubic polynomial over 2^48 |
| Cubic.FactorClose | crates/core/src/asert.rs:33-39 | over the whole fraction range the factor is within 0.4% of 65536·2^(f/65536) |
| Asert.NextTarget | crates/core/src/asert.rs:18-59 | the next target is always in [1, limit] |
| Asert.TargetMonotone | crates/core/src/asert.rs:18-59 | the next target is monotone in the time difference and antitone in the height difference, across fraction steps, shift boundaries and clamps |
| Asert.TauDoubles | crates/core/src/asert.rs:3-4 | at or behind schedule, tau more seconds give exactly twice the target, cut to the limit |
| Retarget.ExponentMeaning | crates/core/src/asert.rs:26-27 | the exponent is the schedule error over tau in 65536ths, truncated toward zero |
| Retarget.HalvedMeaning | crates/core/src/asert.rs:43-58 | halving k times is the quotient by 2^k, rounded down |
| Compact.Decoded | crates/core/src/compact.rs:5-39 | decoding an encoded target is defined exactly below 2^255 and clears only the bytes that do not fit |
| Compact.RoundTrip | crates/core/src/compact.rs:5-39 | encoding rounds to the greatest encodable target not above the given one, and re-encoding that gives the same bits |
| Compact.FieldsMeaning | crates/core/src/compact.rs:5-25 | exponent byte e and mantissa m decode to m·256^(e − 3) rounded down; the sign bit, a zero value and exponents above 32 decode to nothing |
| Compact.RoundingMonotone | crates/core/src/compact.rs:27-39 | rounding keeps the order of targets |
| Median.MedianRank | crates/node/src/chain.rs:249-250 | the sorted middle element is at least v exactly when at most half of the times are below v |
| Median.MedianAdvances | crates/node/src/chain.rs:237-251 | a block newer than the median, entering a growing or full window, never lowers the median |
| TreeProofs.WindowMeaning | crates/node/src/chain.rs:237-248 | the window of a block is the times of its chain's last min(n, height + 1) blocks, newest first |
| TreeProofs.MedianTimeMeaning | crates/node/src/chain.rs:237-251 | median time past is at least v exactly when at most half of the last eleven times, or of all there are, lie below v |
| Merkle.MerkleRoot | crates/core/src/merkle.rs:5-25 | the layer loop with odd-node duplication computes the recursive tree root |
| Merkle.RootTopDown | crates/core/src/merkle.rs:5-25 | the root built from the leaves up is the tree read from the root down: a full left half, and a missing right half stood in for by the left |
| Merkle.RootInjective | crates/core/src/merkle.rs:5-25 | a root determines its leaves among duplicate-free lists of any lengths, and among lists of one length |
| Merkle.OddListCollides | crates/core/src/merkle.rs:15-18 | without the duplicate guard roots collide: every odd list and the same list with its last leaf repeated |
| Merkle.RootFirst | crates/core/src/merkle.rs:5-25 | whatever else collides, a root determines whether there are leaves and the first one |
| Merkle.RootNotEmptyTree | crates/core/src/merkle.rs:6-8 | no non-empty list has the root of the empty one |
| Conservation.CheckTxMeaning | crates/node/src/chain.rs:404-467 | a spend is accepted if and only if it obeys all spending rules at once, and its fee is inputs minus outputs |
| Conservation.CheckTxOverflow | crates/node/src/chain.rs:450-461 | a check fails with overflow only when one transaction's own outputs reach 2^64 |
| Refusals.TxRefused | crates/node/src/chain.rs:404-467 | the error of a refused transaction names the first rule it breaks: its shape, else a repeated input, else its first bad input, else its first bad output, else outputs beyond inputs |
| Conservation.ApplySpend | crates/node/src/chain.rs:510-529 | an accepted spend has a new txid, keeps the ledger invariant, and unspent total plus fee stays the same |
| Conservation.ApplyCoinbase | crates/node/src/chain.rs:489-495 | the height prefix makes every coinbase new, and its outputs add exactly their value |
| Conservation.ValidateBlockKeeps | crates/node/src/chain.rs:471-562 | one block creates nothing twice, mints at most the reward, and minted = growth of the unspent total + unclaimed fees |
| BlockRules.SpendsMeaning | crates/node/src/chain.rs:505-531 | the spends of a block apply if and only if each obeys the spending rules on what those before it leave, and then the fees are the sum of inputs minus outputs |
| BlockRules.ValidateBlockMeaning | crates/node/src/chain.rs:471-562 | a block is accepted if and only if it obeys all block rules at once (a first transaction without inputs or witnesses, with positive outputs and 8 to 108 bytes of data that begin with the height; distinct ids; spends that obey the rules in order; a claim of at most reward plus fees), and then has exactly that effect |
| Refusals.BlockRefused | crates/node/src/chain.rs:471-562 | the error of a refused block names the first rule it breaks, in the order of the checks |
| BlockRules.ApplyChainMeaning | crates/node/src/chain.rs:355-368 | a chain replays if and only if every block obeys the rules on what the blocks before it leave |
| Conservation.SupplyExact | crates/node/src/chain.rs:355-368 | along any valid chain the unspent total plus the unclaimed fees is exactly the supply, which is within the emission so far and the cap |
| Conservation.NeverCreatedTwice | crates/node/src/chain.rs:497-503 | nothing a block creates was created before on its chain, nor twice within the block, so inserts never overwrite |
| Conservation.OnlyOutputsOverflow | crates/node/src/chain.rs:506-542 | on any valid chain and for every block: as far as its spends apply, no fee, input-total or coinbase-allowance exit can be taken and a check overflows only in its own transaction's outputs; what a valid block mints fits the supply |
| Conservation.SpendExits | crates/node/src/chain.rs:505-542 | exit by exit: after any number of applied spends the unspent total, the fees so far plus the next fee and the reward plus the fees stay below 2^64, and so does every input total |
| Unspent.UnspentExactly | crates/node/src/chain.rs:355-368 | an output is in the UTXO map if and only if some transaction of the chain made it, at that height and with that coinbase mark, and none spent it |
| Unspent.UnspentOverRuns | crates/node/src/chain.rs:254-352 | the same on every reachable tip, whatever reorganisations led there |
| Unspent.SpentOnce | crates/node/src/chain.rs:513-515 | what an accepted transaction spends was never spent before on its chain |
| Unspent.CoinbaseMatures | crates/node/src/chain.rs:432-434 | a coinbase output made at height n is spent only from height n + maturity on |
| TreeProofs.ExpectedBitsDecode | crates/node/src/chain.rs:219-235 | the retarget always yields bits that decode to a target in [1, pow_limit], so the unwrap after the header checks cannot fail; `Retarget.BitsOnSchedule` says which target |
| Retarget.BitsOnSchedule | crates/node/src/chain.rs:219-235 | for a parent at interval·(height + 1) − k·tau after genesis, the bits decode to the greatest encodable target not above max(1, pow_limit / 2^k) |
| Retarget.BitsBehindSchedule | crates/node/src/chain.rs:219-235 | for a parent on or behind schedule the bits are those of the limit |
| Retarget.BitsMonotone | crates/node/src/chain.rs:219-235 | the decoded target is monotone in the parent's time and antitone in its height |
| BlockRules.CheckHeaderMeaning | crates/node/src/chain.rs:267-282 | the header checks pass if and only if bits, time, size, roots and proof of work are as required, all at once |
| BlockRules.CheckGenesisMeaning | crates/node/src/chain.rs:83-100 | the genesis checks pass if and only if parent, bits, proof of work, roots and size are as required |
| BlockRules.AddBlockMeaning | crates/node/src/chain.rs:253-352 | a new block with a known parent is stored if and only if it obeys the header rules and, when it outweighs the tip, its whole chain obeys the block rules; it becomes the tip if and only if it outweighs it |
| TreeProofs.AddBlockKeeps | crates/node/src/chain.rs:254-352 | every block, accepted or not, leaves a well-formed tree whose active chain is valid and heaviest |
| TreeProofs.HeaviestTip | crates/node/src/chain.rs:284-351 | Ok(true) exactly when the tip's work strictly rises, an error changes nothing, and no stored block outweighs the tip; `Work` says what work is worth |
| Work.TargetWorth | crates/node/src/chain.rs:45-49 | work·(target + 1) ≤ 2^256 − 1 < (work + 1)·(target + 1): the work of a target is the expected number of hashes, rounded down |
| Work.BlockWorkAntitone | crates/node/src/chain.rs:284-286 | between stored blocks, a lower target is never worth less, and one at most half as high is worth strictly more |
| Work.CumulativeWork | crates/node/src/chain.rs:284-291 | the work of a stored block is the sum over its chain |
| Work.HarderBranchWins | crates/node/src/chain.rs:284-351 | of two branches of one length above a shared block, one nowhere easier and somewhere at most half the target: when its last block arrives and the chain obeys the rules, `AddBlock` ends on it |
| TreeProofs.ActiveAfter | crates/node/src/chain.rs:303-351 | Ok(true) moves the active path to the parent's path plus the block; every other outcome leaves it |
| TreeProofs.SupplyOverRuns | crates/node/src/chain.rs:254-352 | after any sequence of blocks, unspent total + unclaimed fees = supply ≤ emission so far ≤ cap |
| TreeProofs.OverflowOverRuns | crates/node/src/chain.rs:309-312 | the same on every reachable tip, so every overflow exit but that of one transaction's outputs is unreachable, the early return on the supply included |
| TreeProofs.NoOutpointTwice | crates/node/src/chain.rs:497-559 | no transaction id is created twice along any reachable active chain |
| TreeProofs.MedianNeverGoesBack | crates/node/src/chain.rs:238-277 | median time past of a stored block is at least its parent's |
| TreeProofs.MedianMonotone | crates/node/src/chain.rs:238-277 | median time past never falls along any stored chain |
| Orders.RunStores | crates/node/src/chain.rs:253-301 | a run over valid blocks, parents first and with any repetitions, stores exactly those blocks with their metadata |
| Orders.OrderIndependent | crates/node/src/chain.rs:253-352 | two nodes that receive the same valid blocks in whatever orders, parents first, store the same and end with tips of the same work; a single heaviest block gives both the same chain, outputs and supply |
| Chain.CheckTxLoop | crates/node/src/chain.rs:404-467 | the loops over inputs and outputs return the fee or the first broken rule of the spend check |
| Chain.ValidateBlockTxs | crates/node/src/chain.rs:471-562 | the in-place application of a block gives the minted amount and unspent outputs of the block rule, which `BlockRules.ValidateBlockMeaning` characterises, or its error |
| Chain.ChainState.New | crates/node/src/chain.rs:52-81 | a new state exists exactly when the genesis block passes, and holds it as tip |
| Chain.ChainState.MedianTime | crates/node/src/chain.rs:238-251 | the parent walk collects the last eleven times and returns their median |
| Chain.ChainState.ApplyChainLoop | crates/node/src/chain.rs:355-368 | replaying a path gives its unspent outputs and supply, or the first error |
| Chain.ChainState.WalkBack | crates/node/src/chain.rs:326-337 | the walk-back ends at genesis and yields exactly the parent path |
| Chain.ChainState.AddBlock | crates/node/src/chain.rs:254-352 | side chain, fast extension and reorganisation with rollback all refine the replay-only rule; the incremental state equals replay, and an error leaves every field unchanged |
| Chain.ChainState.ExtendTip | crates/node/src/chain.rs:303-324 | the fast path has the outcome of a full replay, and its supply overflow cannot happen |
| Chain.ChainState.Reorganise | crates/node/src/chain.rs:326-351 | the reorg path has the outcome of a full replay and rolls back on failure |
| Chain.ChainState.CheckContext | crates/node/src/chain.rs:267-282 | the header checks, in order, of a block against its parent chain |
| Chain.ChainState.ValidateStandaloneTx | crates/node/src/chain.rs:372-390 | the pool's check equals the block's check against the tip state; its repeated-outpoint lookup is unobservable |
| Chain.ChainState.IsActive | crates/node/src/chain.rs:141-146 | the height lookup answers membership of the active path |
| Chain.ChainState.LocatorHashes | crates/node/src/chain.rs:150-164 | the stepping loop lists the active hashes at the locator heights |
| Chain.ChainState.HashesAfterLocator | crates/node/src/chain.rs:168-182 | the answer is the active path after the first recognised entry, at most max hashes |
| Genesis.GenesisStarts | crates/node/src/genesis.rs:19-62 | a node starts from the built genesis block if and only if its nonce meets the genesis target, its message fits the coinbase and the block fits |
| Genesis.GenesisHolds | crates/node/src/genesis.rs:19-59 | a node that starts holds exactly one unspent output, 1,384,578,107 units locked to twenty zero bytes, and the supply is that amount |
| Genesis.BuildGenesis | crates/node/src/genesis.rs:53-61 | a searched nonce gives a block a node starts from; a known nonce is used as it is |
| Genesis.NodesExist | crates/node/src/chain.rs:52-81 | the invariants proved of every run are met by an actual state |
| Reload.ReloadRebuilds | crates/cli/src/main.rs:251-259 | adding the saved active blocks to a fresh state succeeds as a new tip at every block and rebuilds tip, chain, unspent outputs and supply |
| Reload.HeaderCommits | crates/node/src/chain.rs:393-401 | two duplicate-free blocks whose headers carry the same roots hold the same transactions, witnesses included |
| Repeats.RepeatedCopyStored | crates/node/src/chain.rs:281-301 | a failure of the code: a side block with an odd number of transactions above one is stored with its last transaction repeated, and the genuine block is then refused as Duplicate |
| Repeats.NothingAboveRepeats | crates/node/src/chain.rs:497-503 | a block becomes the tip only if neither it nor any stored ancestor repeats a transaction, so nothing above such a copy ever does |
| Repeats.ImitationFails | crates/node/src/chain.rs:477-503 | a block with the header of a valid one and other transactions fails on the duplicate guard, and on nothing before it |
| Repeats.ImitatedChainFails | crates/node/src/chain.rs:355-368 | replaying a copy of a valid chain gives the same totals, or DuplicateTx as soon as one block is imitated |
| Restore.Start | crates/cli/src/main.rs:251-259 | the start-up loop succeeds exactly when no block is refused, with the state of the run over all blocks, and otherwise reports the first refused block's error |
| Restore.ActiveBlocks | crates/node/src/chain.rs:188-193 | the saved list is the active chain, genesis first |
| Restore.Restart | crates/cli/src/main.rs:248-260 | saving the active blocks and starting again always works and gives back active path, unspent outputs and supply |
| FileRestart.BlockFaithful | crates/core/src/hash.rs:43-49 | blocks over collision-free messages are equal when their computed contents are |
| FileRestart.RestartFromFile | crates/node/src/store.rs:13-45 | for any state whose active blocks are within the decoder's limits, the saved bytes load, can be read as the active blocks only, and starting from them gives back active path, unspent outputs and supply |
| Locator.LocatorShape | crates/node/src/chain.rs:148-164 | locator heights strictly descend from tip to genesis and fit MAX_LOCATOR exactly for tips up to 2^55 + 7 |
| Locator.LocatorEntries | crates/node/src/chain.rs:148-164 | every entry in closed form: tip − i for the first ten, then tip − 7 − 2^(i − 8), and genesis in place of the first that is not positive |
| Locator.StartIsClose | crates/node/src/chain.rs:166-182 | if the chains agree up to height f, the peer starts at a shared height s with f − s ≤ tip − f |
| Locator.StartAtOurTip | crates/node/src/chain.rs:168-175 | when our chain is a prefix of the peer's, the peer starts right after our tip |
| Nonce.FirstHitIsFirst | crates/pow/src/lib.rs:225-239 | the search returns a nonce that meets the target with none before it, or none meets it |
| Joint.JointlyValid | crates/node/src/miner.rs:37-62 | spends valid on their own that share no input apply together in one block, in any order, each paying its own fee |
| Miner.SelectKeeps | crates/node/src/miner.rs:37-62 | the selection is conflict-free, valid, within the size budget, and its fees are the sum of its members' fees |
| Miner.SelectGreedy | crates/node/src/miner.rs:41-62 | a candidate is left out only if it is invalid, too large for the budget left, or in conflict with an included one |
| Miner.BuildBlockTemplate | crates/node/src/miner.rs:26-108 | the in-place construction yields the template of the tip state, which `Miner.TemplatePays`, `Miner.SelectGreedy` and `Miner.TemplateApplies` characterise |
| Miner.TemplateApplies | crates/node/src/miner.rs:64-88 | the template's transactions apply, its amount does not wrap, its size fits, and its coinbase is refused exactly when it pays zero |
| Miner.MinedTemplateConnects | crates/node/src/miner.rs:26-122 | for every reachable state and candidate list, a mined template becomes the new tip if reward + fees > 0 and is refused with ZeroOutput otherwise |
| Miner.TemplatePays | crates/node/src/miner.rs:26-108 | after a mined template connects, output 0 of its first transaction, its only one, is unspent and holds exactly reward + fees, locked to the payee, with the new height and the coinbase mark; its time is the later of the clock and median + 1 |
| Miner.VersionSignalled | crates/core/src/tx.rs:14-34 | the software version put into a coinbase reads back from its data |
| Miner.MineAndConnect | crates/node/src/miner.rs:125-136 | template, search and submission extend the active path by the mined block, whose reward and fees are then the payee's, or leave the state as it was |
| Mempool.Pool.Insert | crates/node/src/mempool.rs:67-94 | admission decides by the named rules in order, and the index and byte count stay exact |
| Mempool.Pool.Remove | crates/node/src/mempool.rs:96-103 | removal drops the transaction and keeps index and byte count exact; the saturating subtraction never saturates |
| Mempool.Pool.UpdateForBlock | crates/node/src/mempool.rs:107-128 | exactly the transactions neither included in nor conflicting with the block and still valid at the new tip remain |
| Mempool.PoolDisjoint | crates/node/src/mempool.rs:32-39 | no outpoint is spent by two pooled transactions |
| Mempool.PoolApplies | crates/node/src/mempool.rs:66-128 | any subset of an indexed, current pool, in any order, applies in the next block, each transaction paying its admitted fee |
| Fees.AdmissionMeaning | crates/node/src/mempool.rs:67-94 | a transaction is admitted if and only if it is new, shares no input with a pooled one, obeys the spending rules, pays at least its size and at least 1,000, and fits; it is then admitted with inputs minus outputs |
| Fees.SameOutput | crates/node/src/chain.rs:404-467 | an output that two valid chains both hold unspent is the same one |
| Fees.FeeFixed | crates/node/src/chain.rs:404-467 | a transaction valid on two tips pays the same fee on both |
| Fees.SurvivorsPay | crates/node/src/mempool.rs:107-128 | what stays in the pool across any change of the tip still pays at least its size and at least 1,000 |
| Sync.DeliverNext | crates/net/src/node.rs:644-656 | the peer's next block is stored as a side block unless it outweighs our tip; then it becomes our tip if our copies of the peer's blocks are the peer's, and is refused with DuplicateTx if one of them is not |
| Sync.StartKnown | crates/node/src/chain.rs:168-175 | the peer's answer starts at a block we know |
| Sync.OfferedStep | crates/net/src/node.rs:591-614 | of an announced batch exactly the unknown blocks are requested, and nothing is sent when all are known |
| Sync.FetchingStep | crates/net/src/node.rs:615-631 | the peer answers a request with the requested blocks in order |
| Sync.DeliveringStep | crates/net/src/node.rs:644-656 | each delivered block is added and only the last of a batch triggers the next request; a block that outweighs our tip over an imitated copy gets the peer punished |
| SyncRuns.StepAdvances | crates/net/src/node.rs:591-666 | in an advancing exchange every handled message brings it nearer the end, none is orphaned or invalid, and silence means equal tips |
| SyncRuns.Converges | crates/net/src/node.rs:591-666 | every run is short, meets no orphan or invalid block, and once silent both nodes have the same active chain, unspent outputs and supply |
| SyncRuns.PrefixStarts | crates/net/src/node.rs:549-557 | a node whose chain is a prefix of the peer's starts such an exchange on the peer's greeting |
| SyncRuns.ForkStarts | crates/net/src/node.rs:549-557 | after the greeting of a higher peer whose first round outweighs our tip, the exchange advances when no copy we hold of its blocks repeats a transaction, and is blocked when one does |
| SyncRuns.Stalls | crates/net/src/node.rs:632-666 | otherwise every run ends in silence with our active path unchanged, because re-requests carry the same locator |
| SyncRuns.BreaksOff | crates/net/src/node.rs:644-665 | an exchange that meets an imitated copy ends with the peer punished for DuplicateTx and our active path unchanged |
| SyncRuns.IntactCopies | crates/node/src/chain.rs:393-401 | the copies we hold of the peer's blocks are the peer's exactly when none repeats a transaction |
| SyncRuns.SyncOutcome | crates/net/src/node.rs:591-666 | greeted by a strictly heavier and higher peer, we end on its chain if and only if the first round advances and no block of its chain that we hold repeats a transaction; otherwise our chain stays, in silence or with the honest peer punished for DuplicateTx |
| Node.FullNode.AcceptBlock | crates/net/src/node.rs:311-360 | a new tip refreshes the pool and is announced; every other outcome leaves the pool; the pool stays valid at the tip |
| Node.FullNode.AcceptTx | crates/net/src/node.rs:286-301 | an admitted transaction is announced, and every pooled transaction stays valid at the tip |
| Node.FullNode.HandleInv | crates/net/src/node.rs:591-614 | requests exactly what is neither stored nor already requested nor pooled |
| Node.FullNode.HandleGetData | crates/net/src/node.rs:615-631 | sends what it has of a request in order, or drops an oversized one |
| Node.FullNode.HandleGetBlocks | crates/net/src/node.rs:632-643 | announces at most one round after the recognised locator entry |
| Node.FullNode.HandleHello | crates/net/src/node.rs:549-557 | asks a greeting peer for blocks exactly when it claims more of them and its tip is unknown |
| Node.FullNode.HandleBlock | crates/net/src/node.rs:644-666 | asks for the next batch once this one is complete, restarts on an orphan, punishes an invalid block |
| Deliveries.HonestDelivery | crates/net/src/node.rs:644-666 | whatever block of its own chain an honest peer sends: one we hold is passed over, an orphan draws a request with our locator, the next one is stored; the peer is punished exactly when it outweighs our tip above a held copy that repeats a transaction, and never for a duplicate |
| Deliveries.AnnouncementAnswered | crates/net/src/node.rs:591-614 | an announcement draws at most one request, for exactly the blocks neither stored nor requested and the transactions not pooled |
| Deliveries.RelayDelivers | crates/net/src/node.rs:591-631 | transactions announced out of one pool are asked for as far as the other lacks them, and exactly those are sent, in order |
| Node.FullNode.ReceiveBehind | crates/net/src/node.rs:591-666 | whatever the pool holds, handling a message that names no transaction is one step of the exchange for the node that catches up |
| Node.FullNode.ReceiveAhead | crates/net/src/node.rs:615-643 | and for the node that serves |
| Node.FullNode.PoolReady | crates/net/src/node.rs:311-330 | after anything the node has been through, any selection from its pool applies in the next block |
| Node.FullNode.PoolPays | crates/node/src/mempool.rs:66-128 | after anything the node has been through, every pooled transaction pays at least its size and at least 1,000 in the next block |
| Wallet.LargestFirstSorts | crates/wallet/src/lib.rs:218-218 | the order is the stable descending sort: a permutation, descending, ties in the given order |
| Wallet.LargestAreMost | crates/wallet/src/lib.rs:213-218 | no k candidates are worth more than the k largest |
| Wallet.BuildSend | crates/wallet/src/lib.rs:199-275 | the selection, change and signing loops build the specified payment |
| Wallet.PaymentMeaning | crates/wallet/src/lib.rs:199-275 | a payment fails exactly when the amounts overflow or the spendable owned total falls short, and otherwise inputs = outputs + fee and the node's check accepts it for exactly that fee, unless the amount is zero |
| Wallet.FewestInputs | crates/wallet/src/lib.rs:195-230 | no sufficient selection of spendable owned outputs has fewer inputs |
| Wallet.Send | crates/cli/src/wallet.rs:36-59 | the same against the node's own state, whose total fits 64 bits, and with no more inputs than any sufficient set of its spendable owned outputs |
| Wallet.CollectOwned | crates/cli/src/wallet.rs:14-27 | the listing holds each owned unspent output exactly once |
| Wallet.Balances | crates/wallet/src/lib.rs:184-193 | spendable and pending split the total, without wrapping for totals below 2^64 |
| Encode.U32RoundTrip | crates/core/src/encode.rs:50-90 | a little-endian word reads back whatever follows it |
| Encode.VecRoundTrip | crates/core/src/encode.rs:58-99 | a length-prefixed field within the limit reads back whatever follows it |
| Encode.VecCanonical | crates/core/src/encode.rs:58-64 | a field that reads is within the limit and is the encoding of what was read |
| Encode.ListRoundTrip | crates/core/src/tx.rs:190-204 | a counted list of items that round-trip round-trips |
| Encode.ListCanonical | crates/core/src/tx.rs:190-204 | a counted list that reads is the encoding of its items |
| Encode.Reader.ReadBytes | crates/core/src/encode.rs:33-40 | reading advances by exactly the bytes returned, or reports the end |
| Encode.Reader.ReadVec | crates/core/src/encode.rs:58-64 | reads the prefix, enforces the limit, then the field |
| Encode.Reader.ReadCount | crates/core/src/encode.rs:67-73 | reads a count and enforces its bound |
| Codec.LockRoundTrip | crates/core/src/tx.rs:95-129 | a lock reads back from its encoding |
| Codec.LockCanonical | crates/core/src/tx.rs:115-133 | a lock that reads is the encoding of what was read; other tags and schemes are refused |
| Codec.OutputRoundTrip | crates/core/src/tx.rs:141-153 | an output reads back from its encoding |
| Codec.BodyRoundTrip | crates/core/src/tx.rs:170-214 | a body within the limits reads back, whatever follows |
| Codec.BodyCanonical | crates/core/src/tx.rs:188-214 | a body that reads is within the limits and is the encoding of what was read |
| Codec.TxRoundTrip | crates/core/src/tx.rs:248-280 | a transaction within the limits reads back, whatever follows |
| Codec.TxCanonical | crates/core/src/tx.rs:266-280 | a transaction that reads is within the limits and is the encoding of what was read |
| Codec.DecodeAllTx | crates/core/src/tx.rs:282-287 | a byte string decodes to a transaction if and only if it is its encoding and it is within the limits |
| Codec.HeaderRoundTrip | crates/core/src/block.rs:23-46 | a header reads back from its encoding |
| Codec.HeaderCanonical | crates/core/src/block.rs:36-46 | a header that reads is the encoding of what was read |
| Codec.BlockRoundTrip | crates/core/src/block.rs:68-88 | a block within the limits reads back, whatever follows |
| Codec.BlockCanonical | crates/core/src/block.rs:77-88 | a block that reads is within the limits and is the encoding of what was read |
| Codec.DecodeAllBlock | crates/core/src/block.rs:90-95 | a byte string decodes to a block if and only if it is its encoding and it is within the limits |
| Codec.TxLength | crates/core/src/tx.rs:298-300 | the size the pool and the miner use is the length of the encoding |
| Codec.BlockLength | crates/core/src/block.rs:105-107 | the size the chain limits is the length of the encoding |
| Layout.LockLayout | crates/core/src/tx.rs:95-113 | the byte at every offset of a lock |
| Layout.BodyLayout | crates/core/src/tx.rs:171-186 | where every field of a body lies: input i at 8 + 36i, each output after the sizes of those before it, then lock time and data |
| Layout.TxLayout | crates/core/src/tx.rs:249-264 | where a transaction's body, its length and every witness lie |
| Layout.HeaderLayout | crates/core/src/block.rs:24-34 | where every field of the 120 header bytes lies, least significant byte first |
| Layout.BlockLayout | crates/core/src/block.rs:68-75 | where the header, the count and every transaction of a block lie |
| CodecMethods.EncodeTx | crates/core/src/tx.rs:249-264 | appending field by field yields the transaction's encoding |
| CodecMethods.EncodeBlock | crates/core/src/block.rs:68-75 | appending field by field yields the block's encoding |
| CodecMethods.EncodePow | crates/core/src/block.rs:54-58 | cutting the last eight bytes leaves the header without its nonce |
| CodecMethods.DecodeTx | crates/core/src/tx.rs:266-280 | the reader loops decode what the grammar says, the body from bytes of its own that must be used up |
| CodecMethods.DecodeBlock | crates/core/src/block.rs:77-88 | the reader loops decode what the grammar says |
| CodecMethods.DecodeAllBlocks | crates/core/src/block.rs:90-95 | decoding all bytes re-encodes to the same bytes |
| CodecMethods.DecodeAllTxs | crates/core/src/tx.rs:282-287 | decoding all bytes re-encodes to the same bytes |
| Preimages.PreimageInjective | crates/core/src/tx.rs:216-232 | different messages are hashed from different bytes; a signature hash commits to body, index and spent output |
| Preimages.SameTag | crates/core/src/block.rs:8-9 | messages with equal bytes carry equal tags and contents |
| Preimages.PowInjective | crates/core/src/block.rs:54-58 | the mined message determines the header but for its nonce |
| Preimages.TxidCommits | crates/core/src/tx.rs:289-296 | without collisions, transaction ids are equal exactly when the bodies are, and witness hashes exactly when the witnesses are |
| Preimages.SighashCommits | crates/core/src/tx.rs:222-232 | and signed hashes exactly when body, input number and spent output are |
| Preimages.BlockHashCommits | crates/core/src/block.rs:49-58 | and block hashes exactly when the headers are, and mined messages exactly when the headers but for the nonce are |
| Preimages.TermsFaithful | crates/core/src/hash.rs:43-49 | if SHA3 shows no collision and no zero among the messages in play, hash terms are equal exactly when the hashes are |
| Wire.AddrRoundTrip | crates/net/src/message.rs:55-74 | an IPv4 address, or an IPv6 one that is not IPv4-mapped and has no flow label or scope, reads back |
| Wire.AddrCanonical | crates/net/src/message.rs:64-74 | what reads is such an address |
| Wire.HelloFields | crates/net/src/message.rs:164-171 | a greeting reads back with its nonce, or with nonce zero when fewer than eight bytes remain |
| Wire.MessageRoundTrip | crates/net/src/message.rs:93-201 | a message survives encoding, with any later bytes appended, if and only if it is within the limits, not the unknown one, and its addresses are plain |
| Wire.DecodeExactly | crates/net/src/message.rs:156-201 | the full decoder: a message comes from its own encoding with anything appended, a greeting also from its fields without the nonce, the unknown message from the tags of later versions, and nothing else decodes |
| Wire.Truncated | crates/net/src/message.rs:156-161 | a message cut short fails to decode, except a greeting cut within its nonce, which decodes with nonce zero |
| Layout.HelloLayout | crates/net/src/message.rs:95-108 | where every field of the 55 bytes of a greeting lies |
| Layout.MessageLayout | crates/net/src/message.rs:93-154 | the kind numbers, and that what a message carries follows at once |
| Layout.ListsLayout | crates/net/src/message.rs:93-154 | announcements and requests carry the blocks' hashes, then the transactions' |
| Layout.AddrLayout | crates/net/src/message.rs:55-62 | where an IPv4 or IPv6 address and its port lie in 18 bytes |
| Wire.EncodeMessage | crates/net/src/message.rs:93-154 | appending field by field yields the message's encoding |
| Wire.DecodeMessage | crates/net/src/message.rs:161-201 | the reader decodes what the grammar says and ignores what follows |
| Store.LoadSaved | crates/node/src/store.rs:13-45 | loading a saved file gives back network and blocks, whatever follows in the file |
| Store.LoadedWasSaved | crates/node/src/store.rs:29-45 | every file that loads is what saving its content writes, up to a tail |
| FileRestart.WideGenesisUnreadable | crates/core/src/tx.rs:188-204 | a failure of the code: a genesis block with more outputs than the decoder reads is accepted, saved, and does not load as itself |
| Store.LoadsExactly | crates/node/src/store.rs:13-45 | a saved file gives its blocks back if and only if they are within the decoder's limits |
| Layout.FileLayout | crates/node/src/store.rs:13-22 | where the magic, the network, the count and every block with its length lie in the chain file |
| Store.Save | crates/node/src/store.rs:13-22 | the writing loop yields the file format |
| Store.Load | crates/node/src/store.rs:29-45 | the reading loop decodes the file format |
| Pow.SeedForEpoch | crates/pow/src/lib.rs:23-29 | the seed is the epoch's element of the hash chain from zero |
| Pow.GenCache | crates/pow/src/lib.rs:83-111 | filling and two strengthening rounds in place give the epoch's cache |
| PowShape.FilledItems | crates/pow/src/lib.rs:83-95 | before strengthening, the first item is a hash of the seed and every other of the one before it |
| PowShape.StrengthenedItems | crates/pow/src/lib.rs:96-109 | after a round every item is a hash of its predecessor and of the item its own first word chose, each as the round had left it |
| Pow.PowContext.ComputeItem | crates/pow/src/lib.rs:114-133 | mixing in place gives the dataset item of the cache |
| Pow.PowContext.GenDataset | crates/pow/src/lib.rs:138-157 | the materialised dataset holds exactly the items the cache yields |
| Pow.HeldPage | crates/pow/src/lib.rs:177-184 | every page index is inside the dataset, and the page there is the one the cache yields |
| Pow.PowContext.ReadPage | crates/pow/src/lib.rs:177-184 | a page is the same with and without a dataset |
| Pow.PowContext.Compute | crates/pow/src/lib.rs:187-216 | with or without a dataset the hash is the one computed from the cache alone |
| PowShape.FnvUndone | crates/pow/src/lib.rs:31-34 | a folded word is had back from the word folded in, by the inverse multiplier |
| PowShape.FoldedLane | crates/pow/src/lib.rs:36-44 | folding acts on each word by itself |
| PowShape.FoldingOneToOne | crates/pow/src/lib.rs:36-44 | folding a page in loses nothing of the mix, and different pages leave different mixes |
| PowShape.CompressedLane | crates/pow/src/lib.rs:206-215 | word k of the compressed mix folds words 4k to 4k + 3 in order |
| PowShape.EveryWordCounts | crates/pow/src/lib.rs:206-215 | pages that differ in one word compress differently |
| PowShape.IndexCounts | crates/pow/src/lib.rs:114-122 | items that start from one cache item start from different bytes |
| PowShape.HashBinds | crates/pow/src/lib.rs:187-216 | without collisions, one hash comes from one message and one nonce only, whatever the caches |
| PowShape.SeedsApart | crates/pow/src/lib.rs:21-29 | without collisions, different epochs have different seeds |
| Pow.Mine | crates/pow/src/lib.rs:225-239 | the search on any context returns the first hit of the light hash |
| PowCheck.MineHeader | crates/pow/src/lib.rs:225-239 | a nonce mined on a full dataset passes the node's light check, and every earlier one fails it |
| PowCheck.LightCheck | crates/node/src/chain.rs:205-216 | the node's check accepts a nonce exactly when the light hash meets the decoded target |

## Left out

- Keccak, SHAKE, ML-DSA, SLH-DSA, ML-KEM, ChaCha20-Poly1305 and bech32m: library internals.
- `crates/net/src/transport.rs`, TCP, threads, locks, timeouts, peer discovery, bans and connection counters: each handler is one atomic step here.
- Gossip of addresses, ping, pong and the self-connection check of the greeting: easy next to block sync. The greeting's effect on sync is `Sync.OnHello`.
- Sync with several peers or a peer whose chain moves: the exchange is with one honest, static peer, and no transaction is announced during it.
- SyncRuns.SyncOutcome: covers greetings of a higher peer only, since a heavier peer that claims no more blocks than we have is not asked for any.
- Asert.NoI128Overflow: assumes an interval below 2^46 seconds, which the consensus parameters of the model include; larger ones can overflow the program's 128-bit product.
- Miner.MinedTemplateConnects: assumes a block size limit of at least 201 bytes, a median time below 2^64 − 1 and a next height below 2^64; below these no template can be valid, or the sums wrap.
- Miner.BuildBlockTemplate: the software version is a parameter; its parsing from the build is not modelled.
- Wallet.Send: wallet files, seeds and key derivation are not modelled; keys come from an arbitrary derivation function.
- Wallet.CollectOwned: models the listing from a local chain state, not the remote one, which rebuilds every lock as a plain one.
- Wallet.BuildSend: the missing-key error of the source is shown unreachable and has no branch.
- Mempool.Pool.UpdateForBlock: transactions of blocks a reorganisation abandons do not return to the pool, as in the source.
- Store.Save: file creation and renaming are left out; only the byte format is modelled.
- FileRestart.RestartFromFile: assumes active blocks within the decoder's limits, which `Store.LoadsExactly` shows to be needed, and no SHA3-256 collision among their hashes.
- The memo of light contexts in `crates/node/src/chain.rs:195-203` and the progress output of dataset generation: neither changes a result.
- `crates/gpu` and its kernel, the CLI, the dashboard, RPC and release scripts.
- Block rate, miner behaviour and other economic claims: not decided by this code.
