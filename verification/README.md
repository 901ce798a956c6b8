# Verification of the mining pool's core

The repository is a Monero mining pool: a stratum server that hands out jobs and judges shares, a
Redis store that keeps rounds, blocks and money, and a block unlocker that turns found blocks into
payments. This project models its core in Dafny and proves what it keeps.

`dafny verify dfyconfig.toml` checks everything.

## The parts

**Money and blocks.** `Blocks`, `RedisStore` and `RedisClient` hold the key space: hashes are maps,
sorted sets are maps from typed rows to scores, and every `tx.Exec` is one function from store to
store, done by a method of `RedisClient.Client` that updates the fields in place. A transaction, or a
command sent on its own, may be applied, not applied, or applied with its reply lost. `Unlocking` and
`Rewards` hold what the unlocker computes; `BlockUnlocker` holds its two passes. `PoolRun` is the same
accounting as a state machine: shares, found blocks, balance and payment writes and the two passes,
interleaved at transaction granularity, every write with its fault, every read able to fail, and the
unlocker able to die and start over between any two steps. Each pass of the class is proved to be a
legal run of that machine, consisting of exactly the writes its inputs call for. `Lifecycle` carries
the ledger and the rows through every step, whatever blocks are found, whatever the daemon reports and
whatever fails; `RoundBooks` carries the rounds and the amounts through proper runs, those whose shares
and blocks are as the stratum server sends them; `CreditLog` has the log of immature credits;
`Guarantees` states what follows for every run, `Contributions` ties each miner's money to the shares,
deductions and payments that the steps of the run sent, `Effects` says field by field and login by login
what each transaction does, without the functions that define it, `LostBlocks` what happens to blocks that fall between
the two commands of WriteBlock, and `Scenarios` has the runs that reach the surprises listed below.
`Reports` has the lists and rankings that are only shown, and compares the list of pending payments
with the amounts that are pending.

**Rows as text.** `Text` and `Rows` prove that the colon-joined members of the sorted sets and the
typed rows determine each other, and that adding and removing strings is adding and removing rows.
That is what lets the rest use typed rows.

**Block templates.** `VarInt` and `BlockCodec` give the wire format (varints are unsigned LEB128,
section 7.6 of the DWARF 4 standard) as a printer and a parser on byte sequences; `BlockStream` runs
the source's own reads, writes and loops on a stream and is proved to do what they say. `Wire` writes
the format down by itself, which bytes stand where and what they mean, and proves that the parser reads
every byte string of that form and the printer writes no other. `Template`
accepts templates and patches their bytes at the hard-coded places, and proves what the patches do to
the block the bytes spell.

**Shares.** `Hex` spells nonces, `Difficulty` does the 256-bit arithmetic, `Jobs` has the classes of
one session, `ShareProtocol` the interleavings of all sessions of an endpoint, `Dedupe` the backend's
window of proof-of-work triples.

**Upstreams.** `Upstream` has the health counters and the 60-round window, against their histories.

## Where the code does not do what one might expect

The model follows the code in each case.

- A reward mismatch returns a nil result with a nil error (payouts/unlocker.go:132), and the callers
  then dereference it (payouts/unlocker.go:215, 316). The model ends the pass there, before any write,
  with `halt` set.
- The recovery counter is read but never moves off 0 (payouts/unlocker.go:172-180), so a halted
  unlocker resumes at its next call: `BlockUnlocker.BlockUnlocker.Recover`.
- The dedupe window is three heights (storage/redis.go:184); the repository's test still expects a
  repeat six heights later to be caught (storage/redis_test.go:39-42). `Dedupe.SixHeightsLater` shows
  that input, `Dedupe.WindowIsThree` and `Dedupe.SecondCall` say exactly what is caught.
- The bound `height-3` is unsigned, so below height 3 a call forgets every entry:
  `Dedupe.LowHeightsForgetAll`.
- WriteBlock archives the round and inserts the candidate with two commands (storage/redis.go:243-264).
  If the second does not take effect, or the reply to the first is lost, the block never becomes a
  candidate and its shares stay archived, unpaid: `LostBlocks.LostReply` and `LostBlocks.LostInsertion`
  are such runs, `LostBlocks.LostExactly` says exactly which blocks are lost, `LostBlocks.LostForGood`
  that they stay so.
- Credits are logged with HSETNX (storage/redis.go:495), so two blocks sharing a height and hash lose
  part of the log: `Scenarios.TwinNoncesLoseCredit` is such a run, `CreditLog.SharedKeyLosesCredit` says
  exactly when it happens.
- The read of a log entry is not checked (storage/redis.go:507, 551). If it fails, the transaction still
  deletes the entry and settles the row, and immature is not reduced: `Scenarios.FailedReadRun` is such a
  run, `CreditLog.UnreadLogLosesCredit` says exactly when the log is left short. Together with the case
  before it is the only way in which a miner's immature balance parts from the log:
  `CreditLog.CoveredUntil`.
- The entry is looked up under the hash of the header read at maturity (storage/redis.go:504). If that
  hash is not the one of the first pass, immature is not reduced as it should be, and the entry stays:
  `Scenarios.ChangedHashRun` reaches that, `Guarantees.AgreementIsExact` says when the two passes agree,
  `Guarantees.ChangedHashTakesOther` what happens to the entries. Immature and log still match.
- A confirmed header whose hash has fewer than ten characters makes the pass panic before it writes
  (payouts/unlocker.go:143): `Unlocking.ClassifyFails`.
- `payments:pending` keeps one member per login and amount (storage/redis.go:444), so equal payments
  collapse: `Reports.EqualPaymentsCollapse`, and `Reports.ListedThroughout` for the exact condition.
- Shares are judged on the current template, and only heights are compared (stratum/handlers.go:85-93).
  A template may be replaced by another of the same height (stratum/blocks.go:54), and a session that
  has the height gets no new job (stratum/miner.go:58-61), so its shares are then judged on other bytes
  than it was sent: `Template.SameHeightReplacement` is such an input, `Template.JudgedIsIssued` says
  exactly when the judged buffer is the issued one.
- The first output's amount is cast to int64 (stratum/blocks.go:89); from 2^63 on it becomes a negative
  reward that passes the test against the expected one: `Template.NegativeRewardIsAccepted`, and
  `Template.AcceptedRewardFits` for the exact condition.
- Patching at offset 39 is right only for headers whose versions and timestamp take seven bytes:
  `Template.NoncePatchIsExact` has both directions, `Template.UsualHeadersFit` the headers of the years
  1978 to 3058.
- Two extra nonces can give the same share buffer when the reserved bytes overlap the nonce:
  `Template.ShareBuffersDiffer` has both directions.
- The extra nonce has 32 bits; after 2^32 jobs an endpoint repeats itself:
  `ShareProtocol.WrapAroundRepeats`.
- Short reads are accepted (blocktemplate/serialize.go:27), the height field of the miner input also
  swallows the tag byte in front of it (blocktemplate/transaction.go:17-23), and oversized varints are
  cut to their fields; `BlockCodec.CanonicalReencoding` says exactly which inputs survive re-encoding.
- `FloatString(0)` rounds to nearest with halves away from zero (payouts/unlocker.go:413), not down.
- `FormatRatReward` divides its argument in place (util/util.go:76). It is called on values that are
  only logged afterwards (payouts/unlocker.go:246-256), so it changes no result here.

## Assumptions of the whole-run theorems

Each is asked only where it is named, and can be checked by whoever takes the step.

- Every run (`PoolRun.Enabled`): a found block differs from all earlier ones in one of the fields that
  survive in block rows: nonce, second, difficulty, shares, and the two amounts. Distinct candidate
  members are not enough, since the extra nonces are dropped, and neither is a distinct height, which is
  a score and no part of a member: `Blocks.OrphansCollapse`. Nothing else is asked: shares may have any
  difficulty, blocks any height, nonce and reward, the daemon's headers may be anything, every read may
  fail and every write may be applied or not.
- Proper runs (`PoolRun.Proper`), for what is said of rounds and amounts: shares have positive
  difficulty, a found block uses a (height, nonce) key not used before, its nonce has the accepted
  spelling, and its reward and fees are non-negative with a sum that an int64 holds
  (`Template.AcceptedRewardFits` says when a template provides that).
- Truthful runs (`PoolRun.Truthful`, `PoolRun.ValidIds`), for what is said of the rows that log entries
  belong to and of the agreement of the two passes: the headers give one hash per height and nonce,
  different for different nonces at a height. The daemon may still change which block it reports.
- One unlocker process at a time; the stratum server and the payer may run beside it.

## Model

| member | source | states |
|---|---|---|
| Guarantees.LedgerAgreement | storage/redis.go:433-572 | At every moment of every legal run, whatever blocks are found and whatever headers the daemon reports, the four pool-wide totals are the sums over the miners and `stats.roundShares` is the sum of the current round |
| CreditLog.CoveredUntil | storage/redis.go:485-572 | In every legal run, with any blocks, any headers and any failed reads, a miner's immature balance is the sum of their entries under `credits:immature` at every moment up to a given one iff no step before it credits them a non-zero reward under a key that already holds an amount for them, and none settles a row whose entry holds one and could not be read |
| CreditLog.SharedKeyLosesCredit | storage/redis.go:490-496 | Crediting keeps a miner's immature balance equal to its log iff the login is new under that credit key or its reward is 0, because HSETNX keeps the older amount |
| CreditLog.UnreadLogLosesCredit | storage/redis.go:503-572 | Maturing or orphaning keeps it equal iff the entry was read or holds nothing for the login, because the entry is deleted in any case |
| CreditLog.StepUncovers | storage/redis.go:485-572 | No other step parts a miner's immature balance from its log |
| Guarantees.EntriesAreImmature | storage/redis.go:485-572 | At every moment of every proper run in which the daemon names blocks consistently, failed reads included, each log entry belongs to a confirmed block that is still immature |
| Guarantees.ExactlyOnce | payouts/unlocker.go:171-372 | At every moment of every legal run, with any blocks, any headers and failures and restarts anywhere, a found block is in exactly one of candidates, immature and matured iff it reached the candidates, in a single row, and has been credited to balances once if its matured row is not an orphan and never otherwise |
| Guarantees.MoneyFollowsLog | payouts/unlocker.go:329-360 | At every moment of every legal run the log of payments lists the matured rows that are not orphaned, each once; every miner's balance + pending + paid is what the log gives them, and totalMined the sum of its rewards |
| Blocks.OrphansCollapse | storage/redis.go:65-77 | Two orphaned candidates become one and the same row iff they agree in nonce, second, difficulty, shares and the two amounts: the identity that the runs ask to be fresh is no stronger than needed |
| Guarantees.NeverBack | storage/redis.go:587-600 | Between any two moments of a legal run, with any blocks and headers, a block's stage (candidate, immature, matured) never falls |
| Guarantees.Solvency | payouts/unlocker.go:374-424 | At every moment of every proper run, with any headers, the payments made correspond one to one to the matured rows that are not orphaned, each the split of the round its block archived; balance + pending + paid differs from the exact value of those rows by at most half a unit per rounded reward, totalMined is the sum of their rewards, and so the pool owes at most totalMined plus kept fees plus that bound |
| Guarantees.MinersArePaid | payouts/unlocker.go:374-417 | At every moment of every proper run each single miner's balance + pending + paid is the sum, over the matured rows in the store that are not orphaned, of their share of the round that the row's block archived when it was found |
| Contributions.EarnedByContribution | payouts/unlocker.go:374-417 | At every moment of every proper run, with any headers and faults: to each matured row that is not orphaned belongs an earlier step that archived its round, and a miner's balance is the sum over these rows of the integer nearest to the miners' value in the ratio of the difficulty that this miner's own accepted shares added since the archive before, to the difficulty of all shares, plus the pool's part on its address, less the deductions not rolled back; pending and paid are what the payment steps sent. Shares, deductions and payments are counted from the steps alone |
| Contributions.RoundIsCounted | storage/redis.go:198-252 | At every moment of every legal run the current round holds for every login the difficulty of that login's shares applied since a round was last archived, and `stats.roundShares` that of all logins, counted from the steps alone |
| Contributions.ArchiveIsCounted | storage/redis.go:243-252 | An applied archive leaves, under the block's height and nonce, for every login that count, plus the block's own share for its finder; and the current round empty |
| Contributions.RecordIsCounted | storage/redis.go:243-252 | At every later moment of the run the round recorded for a found block holds these very contributions, and the block's total is their sum |
| Contributions.PaymentsAreCounted | storage/redis.go:433-483 | At every moment of every legal run a login's pending amount is what was deducted for it less what was rolled back and paid, and its paid amount what was paid, counted from the steps alone |
| Guarantees.RoundConservation | storage/redis.go:189-275 | At every moment of every proper run the accepted difficulty is the current round plus all archived rounds plus the rounds deleted with settled blocks; the total of every candidate and every immature row is the positive sum of its archived round, which is still as it was when the block was found |
| Guarantees.RewardsAreDefined | payouts/unlocker.go:407-416 | Whenever a pass of a proper run is about to compute rewards, the reward is set and the round is still archived with a positive sum equal to the divisor |
| Guarantees.TwoPassAgreement | payouts/unlocker.go:154-169 | For every login and every moment of a proper run in which the daemon names blocks consistently, crediting a block at maturity lowers immature by exactly what it adds to balance, although the rewards are recomputed from the re-read row; it lowers it by nothing iff the log could not be read or the block was once marked orphan, or there is nothing to add |
| Guarantees.AgreementIsExact | payouts/unlocker.go:374-417 | With any headers and any read, the two passes agree for a login iff the amount read for it under the block's present hash is the reward computed for it now |
| Guarantees.ChangedHashTakesOther | storage/redis.go:503-537 | A confirmed row that matures under another hash leaves its own entry in the log, and if another block is logged under the new hash, deletes that entry while the other block stays immature |
| Scenarios.ChangedHashRun | storage/redis.go:503-537 | A proper run in which a block's hash differs between the passes: whether the log is read or not, balance rises by ten and immature by nothing falls |
| Scenarios.FailedReadRun | storage/redis.go:505-543 | A proper run with one header throughout and a failed read of the log at maturity: the entry is gone, and the login holds ten in immature beside ten in balance |
| Guarantees.OrphaningRestores | storage/redis.go:547-572 | For every login and every moment of a proper run in which the daemon names blocks consistently, orphaning an immature block takes back exactly the rewards its archived round was due if the log is read, nothing if not, and changes no balance, pending or paid amount |
| LostBlocks.LostExactly | storage/redis.go:243-265 | In every legal run, whatever blocks are found, a block has its round archived but is not a candidate, never was and is not about to be iff the reply to its archive was lost or its insertion was not applied |
| LostBlocks.LostForGood | storage/redis.go:243-265 | From then on, at every later moment of the run, it is in none of the sorted sets and credited to nobody |
| LostBlocks.LostSharesStay | storage/redis.go:243-265 | In proper runs its round stays archived under its key, at every later moment with the same shares |
| LostBlocks.LostReply | storage/redis.go:243-255 | One share that finds a block, with the reply to the archive lost, is such a run |
| LostBlocks.LostInsertion | storage/redis.go:264-265 | An acknowledged archive followed by an insertion that does not take effect is another |
| Scenarios.TwinNoncesLoseCredit | storage/redis.go:490-496 | A legal run with two blocks of one nonce at one height, of different proof-of-work triples and confirmed by the same header, after which immature holds both rewards and the log one |
| Lifecycle.NextKeepsLedger | storage/redis.go:189-600 | Every step, with any block, any header and any fault, keeps the totals, the partition of the rows, what the pass holds and the correspondence of payments to matured rows |
| RoundBooks.NextKeepsBooks | storage/redis.go:189-600 | Every step of a proper run also keeps every block's round archived as it was until the block matures, the conservation of shares and the payments' being the splits of those rounds |
| Lifecycle.RunLedger | storage/redis.go:189-600 | That holds at every moment of every legal run from an empty store |
| RoundBooks.RunBooks | storage/redis.go:189-600 | That holds at every moment of every proper run from an empty store |
| CreditLog.NextKeepsLog | storage/redis.go:485-600 | Every proper step whose headers name blocks consistently, a failed read of the log included, keeps the log in order: each confirmed immature row has exactly its due rewards logged under its height and hash, and nothing else is logged |
| CreditLog.RunLog | storage/redis.go:485-600 | The log is in order at every moment of every proper run in which the daemon names blocks consistently |
| Lifecycle.WriteImmatureBlockKeeps | payouts/unlocker.go:231-248 | Crediting the next confirmed block of the first pass, read or failed, applied or not, keeps totals, rows, pass and payments in order |
| Lifecycle.WriteMaturedBlockKeeps | payouts/unlocker.go:333-350 | Crediting the next confirmed block of the second pass, its log entry read or not, keeps them in order: its payment enters the log, and an applied write whose reply was lost leaves no immature row behind to be credited again |
| Lifecycle.WriteOrphanKeeps | payouts/unlocker.go:318-325 | Settling the next orphan of the second pass, its log entry read or not, keeps them in order |
| Lifecycle.WritePendingOrphansKeeps | payouts/unlocker.go:217-224 | Moving all orphans of the first pass in one write keeps them in order, and the confirmed blocks still to credit stay candidates |
| Lifecycle.ArchiveRoundKeeps | storage/redis.go:237-252 | Archiving any found block with a fresh identity keeps them in order, the block not yet being a candidate |
| RoundBooks.SettleKeepsRounds | storage/redis.go:596-600 | A settled row takes its own round with it and no other, its shares being counted as retired |
| Rewards.RoundIsNearest | payouts/unlocker.go:413 | An integer is the rounded value iff it is nearest to the rational, ties going away from zero |
| Rewards.CalculateRewardsForShares | payouts/unlocker.go:407-417 | Whatever order the map is walked in, the result has the logins of the shares and no others, and for each the integer nearest to profit times shares over total, halves away from zero |
| Rewards.SplitIsByShare | payouts/unlocker.go:407-417 | The function of the shares that the theorems use does the same: each login's part is the integer nearest to profit times its own shares over the total |
| Rewards.SplitWithinHalfPerLogin | payouts/unlocker.go:407-417 | With shares adding up to the total, the rewards of k logins add up to the profit within k/2 |
| Rewards.SplitMonotone | payouts/unlocker.go:407-417 | A login with at least as many shares earns at least as much |
| Rewards.RewardFitsInt64 | payouts/unlocker.go:412-414 | With non-negative shares and a profit an int64 holds, every reward lies between 0 and the largest int64, so parsing it back never fails |
| Unlocking.RevenueIsWhole | payouts/unlocker.go:154-169 | Miners' profit and pool profit of a confirmed block make up coinbase plus fees, whether or not the pool keeps the fees |
| Unlocking.RewardsWithin | payouts/unlocker.go:374-424 | The rewards written for a confirmed block add up to what it is worth to the credited accounts within half a unit per rounding, the fee address included |
| Unlocking.CalculateRewards | payouts/unlocker.go:374-405 | The three totals and the rewards map as updated step by step: revenue is the sum of the two profits, and the rewards are the split plus the pool's rounded profit under the lower-cased fee address |
| Unlocking.RewardsByLogin | payouts/unlocker.go:154-169 | Login by login, the rewards of a confirmed block: the integer nearest to the miners' value in the ratio of the login's shares, plus, on the lower-cased fee address if there is one, the integer nearest to the pool's value (its rate, and the fees it keeps); nobody else is credited |
| Unlocking.MatchesIsOnChain | payouts/unlocker.go:113-123 | For every accepted nonce text the test passes iff the header's nonce is b0 + 2^8 b1 + 2^16 b2 + 2^24 b3 for the four bytes the text spells |
| Unlocking.NonceExample | payouts/unlocker.go:113-123 | The text 1a2b3c4d passes for the header nonce 0x4d3c2b1a and no other |
| Unlocking.ChainDecides | payouts/unlocker.go:102-152 | In a batch with a verdict, a block whose header carries its nonce is in the first list and not in the second, with the header's hash and the reward that its amounts and the fee setting give; any other is in the second and not in the first, unchanged but for the mark |
| Unlocking.ClassifySplits | payouts/unlocker.go:102-152 | A verdict on a batch puts every block in exactly one of the two lists, in batch order: confirmed iff its header carries its nonce, with hash, reward and kept fee set, otherwise marked as an orphan |
| Unlocking.ClassifyFails | payouts/unlocker.go:107-143 | A batch gets a verdict iff every block is passed; otherwise the first block that is not decides: a reward mismatch, on which the callers crash, iff its header carries its nonce and pays another reward than recorded; a panic iff nonce and reward are right and the hash has fewer than ten characters; the daemon's error iff its header could not be read |
| RedisStore.ShareAgrees | storage/redis.go:198-208 | Counting a share keeps the totals equal to the sums |
| RedisStore.ImmatureAgrees | storage/redis.go:485-501 | Crediting immature balances keeps the totals equal to the sums and what is owed unchanged, for any block and rewards |
| RedisStore.MaturedAgrees | storage/redis.go:503-545 | Crediting balances keeps the totals equal to the sums, and what is owed grows by exactly the rewards, whatever was logged |
| RedisStore.OrphanAgrees | storage/redis.go:547-572 | Orphaning keeps the totals equal to the sums and what is owed unchanged |
| RedisStore.UpdateBalanceAgrees | storage/redis.go:433-463 | Moving money between balance and pending, in either direction, keeps the totals equal to the sums and what is owed unchanged |
| RedisStore.WritePaymentAgrees | storage/redis.go:465-483 | Paying out keeps the totals equal to the sums and what is owed or paid unchanged |
| RedisStore.PendingOrphansFrame | storage/redis.go:574-594 | Moving any batch of orphaned candidates touches rounds, candidates and immature rows only |
| RedisStore.PendingOrphansLeave | storage/redis.go:574-594 | After the move no block of the batch is a candidate, and no candidate has appeared |
| Effects.ShareEffect | storage/redis.go:204-207 | A share raises its own login's count, from 0 if there was none, and the total, each by the difficulty, and touches nothing else |
| Effects.BlockEffect | storage/redis.go:243-252 | An archive adds one round, the current one with the block's own share raised for its login only; other rounds stay, and the current one starts empty |
| Effects.MoveRoundEffect | storage/redis.go:588-590 | A rename takes the round from the old key to the new and leaves all others; without a height change or a round nothing happens |
| Effects.ToImmatureEffect | storage/redis.go:587-594 | The raw candidate leaves and no other, the immature row with the record's own fields enters with its height, and nothing else changes but the round's key |
| Effects.ToMaturedEffect | storage/redis.go:596-600 | The raw immature row and the round leave and no others, the matured row with the record's own fields enters with its height, and nothing else changes |
| Effects.ImmatureEffect | storage/redis.go:485-501 | Every login's immature balance rises by its reward, the log keeps amounts it has and takes the others, the total rises by their sum |
| Effects.MaturedEffect | storage/redis.go:503-545 | Every login's balance rises by its reward and its immature balance falls by what was read, the entry goes, the log of credits takes the rewards, and the three totals follow |
| Effects.OrphanEffect | storage/redis.go:547-572 | Every login's immature balance falls by what was read, the entry goes, the total follows, and no balance changes |
| Effects.UpdateBalanceEffect | storage/redis.go:433-463 | The login's balance falls and its pending amount rises by the amount, negative for a rollback; other logins and everything else stay; the totals follow |
| Effects.WritePaymentEffect | storage/redis.go:465-483 | The login's pending amount falls and its paid amount rises by the amount; other logins and everything else stay; the totals follow |
| Effects.ShareReportEffect | storage/redis.go:198-210 | The share enters the pool's hash rate set and its login's, with the second as score, the expiry and the time of the last share; no other member or login changes |
| Effects.BlockReportEffect | storage/redis.go:243-252 | A found block also counts one for its finder in both rankings and records its second |
| Effects.PaymentReportEffect | storage/redis.go:476-479 | The payment enters both lists, its login and amount leave the pending list, and the lock is gone; no other member changes |
| RedisClient.Client.CheckPoWExist | storage/redis.go:183-187 | Reports a repeat iff the history of calls has the triple inside the window, and adds this call, repeat or not, to the history |
| RedisClient.Client.WriteShare | storage/redis.go:189-210 | A repeat or a failed dedupe changes nothing but the dedupe set; otherwise, if the transaction is applied, the round rises by the difficulty for this login and no other, its total by as much, hash rates follow, and nothing else changes; if not, nothing happens |
| RedisClient.Client.ApplyShare | storage/redis.go:201-208 | The round grows by the share for its own login and no other, the round's total by as much, and the hash rate sets, their expiry and the time of the last share are entered |
| RedisClient.Client.WriteBlock | storage/redis.go:228-267 | The archive transaction, rankings included, and the insertion succeed or fail apart; the inserted row records the sum of the archived round |
| RedisClient.Client.ArchiveRound | storage/redis.go:243-252 | The round, with the block's own share added for its finder and for no other login, moves under the block's key, and the current round and its total start from nothing |
| RedisClient.Client.TotalOf | storage/redis.go:257-261 | The loop over the archived round computes its sum in any order |
| RedisClient.Client.UpdateBalance | storage/redis.go:433-448 | Applied: the login's balance falls and its pending amount rises by the amount, no other login's changes, the totals follow, and it is listed as pending, which is what Reports calls a deduction; not applied: nothing |
| RedisClient.Client.RollbackBalance | storage/redis.go:450-463 | Applied: the login's balance rises and its pending amount falls by the amount, no other login's changes, the totals follow, and it is no longer listed, which is what Reports calls a rollback; not applied: nothing |
| RedisClient.Client.MoveToPending | storage/redis.go:440-443 | Balance falls and pending rises by the amount, for this login only and in the totals |
| RedisClient.Client.MoveToPaid | storage/redis.go:472-475 | Pending falls and paid rises by the amount, for this login only and in the totals |
| RedisClient.Client.WritePayment | storage/redis.go:465-483 | Applied: the login's pending amount falls and its paid amount rises by the amount, no other login's changes, the totals follow; it moves from the pending list to the lists of payments, and the lock is released; not applied: nothing |
| Reports.PaymentKeepsList | storage/redis.go:439-480 | An operation keeps the list of pending payments summing to the pending amount of a login iff it is for another login or for nothing, or a deduction finds its login and amount unlisted and a rollback or payment finds them listed |
| Reports.ListedThroughout | storage/redis.go:439-480 | From nothing pending, through any sequence of deductions, rollbacks and payments, the list says what is pending for a login at every moment iff each of its operations found its member as it should |
| Reports.EqualPaymentsCollapse | storage/redis.go:444 | Two deductions of one amount for one login, then one payment, leave that amount pending and the list empty |
| RedisClient.Client.MoveToImmature | storage/redis.go:587-594 | The store after moving a candidate to the immature rows, the round renamed only when its height changed |
| RedisClient.Client.MoveToMatured | storage/redis.go:596-600 | The store after moving an immature row to the matured rows, its round deleted |
| RedisClient.Client.WriteImmatureBlock | storage/redis.go:485-501 | Applied: exactly the crediting transaction, all logins at once; not applied: nothing |
| RedisClient.Client.ApplyImmature | storage/redis.go:489-499 | Row moved, immature raised by the rewards, rewards logged unless present, the total raised by their sum |
| RedisClient.Client.CreditImmature | storage/redis.go:491-496 | The loop credits every reward once, keeps amounts already logged, and returns the sum |
| RedisClient.Client.WriteMaturedBlock | storage/redis.go:503-545 | Applied: exactly the maturing transaction with what the log read gave, nothing if it failed, and the credit is listed; not applied: nothing |
| RedisClient.Client.ApplyMatured | storage/redis.go:516-543 | Immature falls by the amounts that were read, balance rises by the rewards given, the log entry goes whether read or not, the totals and the list of credits follow |
| RedisClient.Client.CreditBalance | storage/redis.go:528-535 | The loop credits every reward to the balances once and returns the sum |
| RedisClient.Client.TakeImmature | storage/redis.go:520-526 | The loop takes every logged amount back from the immature balances and returns the sum |
| RedisClient.Client.WriteOrphan | storage/redis.go:547-572 | Applied: exactly the orphaning transaction with what the log read gave, nothing if it failed; not applied: nothing |
| RedisClient.Client.ApplyOrphan | storage/redis.go:557-570 | Immature falls by the amounts that were read, the log entry goes whether read or not, no balance changes |
| RedisClient.Client.WritePendingOrphans | storage/redis.go:574-585 | Applied: all blocks of the batch moved, in order; not applied: none |
| BlockUnlocker.BlockUnlocker.Recover | payouts/unlocker.go:171-184 | Since the counter never leaves 0, a halted unlocker resumes at its next call and no pass is ever skipped |
| BlockUnlocker.BlockUnlocker.UnlockCandidates | payouts/unlocker.go:102-152 | The loop computes the verdict on the batch, stopping at the first failure, the panic on a short hash included, and a reward mismatch halts the unlocker; in a verdict a block is in the first list and not in the second iff its header carries the nonce that its text spells |
| BlockUnlocker.DeepEnough | payouts/unlocker.go:195-296 | Every candidate that the first pass reads lies at least the immature depth below the daemon's block count, every immature row that the second reads at least the depth |
| BlockUnlocker.BlockUnlocker.ClassifyStep | payouts/unlocker.go:106-150 | One turn of the loop extends the verdict by one block or ends it |
| BlockUnlocker.BlockUnlocker.Examine | payouts/unlocker.go:171-214 | A pass goes on to write iff block count, range query and verdict are all there and the list is not empty; otherwise the store is untouched and the unlocker is halted unless there was nothing to do |
| BlockUnlocker.BlockUnlocker.UnlockPendingBlocks | payouts/unlocker.go:171-270 | The pass is a legal run of the accounting machine consisting of exactly the writes the inputs call for; it ends unhalted iff everything succeeded, and then no block it listed is still a candidate |
| BlockUnlocker.BlockUnlocker.WritePending | payouts/unlocker.go:217-248 | Orphans are moved in one write, then confirmed blocks are credited until the first failure, which halts the unlocker |
| BlockUnlocker.BlockUnlocker.MovePendingOrphans | payouts/unlocker.go:217-224 | One legal step, after which, if acknowledged, none of the orphans is a candidate |
| BlockUnlocker.BlockUnlocker.CreditAllPending | payouts/unlocker.go:231-248 | The loop credits blocks in order up to the first failed read or write, and succeeds iff there is none |
| BlockUnlocker.BlockUnlocker.CreditPending | payouts/unlocker.go:231-248 | One legal step: the rewards written are the ones the accounting machine computes, and the block leaves the candidates |
| BlockUnlocker.BlockUnlocker.UnlockAndCreditMiners | payouts/unlocker.go:272-372 | The second pass is a legal run of exactly the writes its inputs call for, whichever reads of the log work; it ends unhalted iff everything but those reads succeeded, and then no row it listed is still immature |
| BlockUnlocker.BlockUnlocker.WriteMaturing | payouts/unlocker.go:318-350 | Orphans are settled one by one, then confirmed blocks are credited, until the first failure, which halts the unlocker |
| BlockUnlocker.BlockUnlocker.SettleOrphans | payouts/unlocker.go:318-325 | The loop settles orphans in order up to the first failed write, and succeeds iff there is none |
| BlockUnlocker.BlockUnlocker.CreditAllMatured | payouts/unlocker.go:333-350 | The loop credits blocks in order up to the first failed read or write, and succeeds iff there is none |
| BlockUnlocker.BlockUnlocker.CreditMatured | payouts/unlocker.go:333-350 | One legal step: the rewards written are the recomputed ones, and the row leaves the immature set |
| BlockUnlocker.PassContinuesRun | payouts/unlocker.go:71-92 | A pass that starts where a run of the pool stands continues that run, so every guarantee of the runs covers the passes as the class executes them |
| BlockUnlocker.VerdictCovers | payouts/unlocker.go:102-152 | If every block of a verdict has left the candidates, so has every row the batch was read from |
| Text.JoinFields | storage/redis.go:285-315 | The loop renders each value by its type and joins the texts with colons |
| Text.SplitJoin | storage/redis.go:877 | Splitting a joined list of colon-free fields gives the fields back, however many |
| Text.ParseFormatInt | storage/redis.go:881-887 | Decimal text of any integer parses back to it, and of any int64 through ParseInt as well |
| Text.ParseIntSaturates | storage/redis.go:881-887 | Decimal text beyond an int64 reads as the nearest int64, and text that is no number as 0 |
| Rows.WriteCandidateMember | storage/redis.go:262-264 | The member built from an already joined triple is the eight-field member of the candidate row |
| Rows.Key | storage/redis.go:65-77 | The member built field by field is the text of the typed row, an empty hash written as `0x0` and a nil reward as 0 |
| Rows.CandidateText | storage/redis.go:262-264 | A candidate's member is nonce, two extra nonces, second, difficulty, total, coinbase and fee, in this order with colons between |
| Rows.BlockText | storage/redis.go:65-77 | A block's member is 0, the orphan flag as 1 or 0, nonce, hash, second, difficulty, total, coinbase, fee and reward, in this order with colons between |
| Rows.CandidateRoundTrip | storage/redis.go:870-892 | A candidate member parses back to the recorded fields, for all int64 values and colon-free texts |
| Rows.CandidateRecord | storage/redis.go:870-892 | The record read from a candidate's member has the recorded fields, its score as height and round height, no hash and no reward yet, and is no orphan |
| Rows.BlockRoundTrip | storage/redis.go:894-922 | A block member parses back to the recorded fields, its three big integers of any size |
| Rows.RecordRoundTrip | storage/redis.go:53-77 | A record written and read again is the record, except for the placeholder hash, nil rewards and the remembered key |
| Rows.SortedSetSteps | storage/redis.go:587-594 | Adding a member and removing a raw key do to the set of strings exactly what the typed store does to its rows, so a kept key removes the row it came from and no other |
| Rows.BlockSetSteps | storage/redis.go:596-600 | The same for the immature and matured sets |
| Rows.ConvertCandidateResults | storage/redis.go:870-892 | One record per member, in order, each remembering its raw member; the call panics iff some member has too few fields |
| Rows.ConvertBlockResults | storage/redis.go:894-922 | One record per member, in order, each remembering its raw member, or holding nil where a big integer does not parse; the call panics iff some member has too few fields |
| Dedupe.StoredIsHistory | storage/redis.go:183-187 | After any sequence of calls a triple is stored iff some call was the last to submit it and no later purge reached its height; its score is that height |
| Dedupe.RepeatIsReported | storage/redis.go:185-186 | A call reports its triple as existing iff it is a repeat inside the window, rejected repeats having refreshed it |
| Dedupe.SecondCall | storage/redis.go:183-187 | A triple sent at one height and again at another is a repeat iff the second is at most the first plus 3 |
| Dedupe.SixHeightsLater | storage/redis_test.go:35-42 | The input of the repository's test, a second submission six heights later, is not reported, against the test's expectation |
| Dedupe.LowHeightsForgetAll | storage/redis.go:184 | Below height 3 the unsigned bound wraps around and a call forgets every entry |
| VarInt.RawRoundTrip | blocktemplate/serialize.go:86-127 | Every number, with anything after it, is read back from its encoding, leaving exactly what follows |
| VarInt.UintRoundTrip | blocktemplate/serialize.go:86-127 | The same through the cut to 64 bits and to the field's type, for every value of that type |
| VarInt.MinimalIsPack | blocktemplate/serialize.go:107-127 | The bytes read as a varint are the bytes packing would write iff their last group is not a superfluous zero |
| VarInt.ExactRepacks | blocktemplate/serialize.go:86-127 | A minimal varint that fits its field is reproduced by packing the field |
| VarInt.FiveBytes | blocktemplate/serialize.go:86-104 | A number takes five bytes iff it lies in [2^28, 2^35) |
| VarInt.PackVarInt | blocktemplate/serialize.go:86-105 | The loop appends exactly the encoding of any uint64 to the stream |
| VarInt.UnPackVarInt | blocktemplate/serialize.go:107-127 | The loops fail iff the stream has no complete varint; otherwise they return its value modulo 2^64, shifts beyond 63 vanishing, and leave what follows |
| VarInt.SumGroups | blocktemplate/serialize.go:122-125 | The shift-and-add loop in 64 bits computes the little-endian base-128 value modulo 2^64, for any number of groups |
| VarInt.Buffer.Read | blocktemplate/serialize.go:26-32 | A read fails only on an empty stream, and otherwise accepts fewer bytes than asked, the rest staying zero |
| BlockCodec.HeaderRoundTrip | blocktemplate/block.go:14-64 | Every header is read back from its encoding with any suffix left intact |
| BlockCodec.TxRoundTrip | blocktemplate/transaction.go:76-168 | Every miner transaction, with any inputs, outputs and extra bytes, is read back with any suffix left intact |
| BlockCodec.BlockRoundTrip | blocktemplate/block.go:72-115 | Every block is read back from its encoding, and exactly the suffix is left |
| BlockCodec.PackInjective | blocktemplate/block.go:72-92 | Blocks with the same encoding are equal |
| BlockCodec.CanonicalReencoding | blocktemplate/block.go:94-115 | For every input that parses, packing the result reproduces the consumed bytes iff every varint is minimal and fits its field and no read was cut short |
| Wire.BlockReads | blocktemplate/block.go:94-115 | Every byte string laid out as the format says is read as what it means, any suffix left: two version varints, a timestamp varint, 32 bytes of parent, four nonce bytes with the least significant first, the miner transaction, and the counted 32-byte hashes; the layout and its meaning are written down without the printer |
| Wire.TxReads | blocktemplate/transaction.go:120-168 | The transaction's part: version, unlock time, counted input heights, counted outputs, counted extra bytes, signature type, each varint minimal or not and cut to its field |
| Wire.OutReads | blocktemplate/transaction.go:48-65 | An output's part: for every amount varint, 33 key bytes and tag, in this order |
| Wire.OutExample | blocktemplate/transaction.go:48-65 | The 35 bytes 5, 3, 32 zeros, 7 are amount 5, the key 3 and 32 zeros, view tag 7, and nothing is left over |
| Wire.HeaderReads | blocktemplate/block.go:38-64 | The header's part |
| Wire.BlockWritten | blocktemplate/block.go:72-92 | What packing writes for a block is laid out so, and means the block |
| Wire.VarIntReads | blocktemplate/serialize.go:107-127 | Any bytes of which all but the last have the high bit set are read as the sum of their low seven bits times 128^k, leaving exactly what follows |
| Wire.PackSpells | blocktemplate/serialize.go:86-105 | Packing writes such bytes for the number it is given, the last group not zero unless it is the only one |
| Wire.StandardExamples | blocktemplate/serialize.go:86-127 | The examples of unsigned LEB128 in the DWARF 4 standard |
| Wire.CountTooLarge | blocktemplate/transaction.go:142-152 | A count from 2^63 on ends the parse, whatever follows |
| BlockStream.UnPackU32 | blocktemplate/block.go:127-135 | Reads the little-endian nonce, short reads included |
| BlockStream.UnPackHeader | blocktemplate/block.go:38-64 | Field by field, does to value and stream what the header parser says, failing iff it fails |
| BlockStream.UnPackIn | blocktemplate/transaction.go:17-24 | Reads the height together with the tag byte in front of it as one varint |
| BlockStream.UnPackOut | blocktemplate/transaction.go:48-65 | Reads amount, key and view tag as the output parser says, whose layout Wire.OutReads states; a key that is read has 33 bytes |
| BlockStream.UnPackIns | blocktemplate/transaction.go:131-141 | The loop reads as many inputs as counted, failing iff the list parser fails |
| BlockStream.UnPackOuts | blocktemplate/transaction.go:142-152 | The loop reads as many outputs as counted, failing iff the list parser fails |
| BlockStream.UnPackExtra | blocktemplate/transaction.go:153-161 | Reads the extra field in one read, short reads included |
| BlockStream.UnPackHashes | blocktemplate/block.go:103-113 | The loop reads as many hashes as counted, failing iff the list parser fails |
| BlockStream.UnPackTx | blocktemplate/transaction.go:120-168 | Does to value and stream what the transaction parser says, failing iff it fails |
| BlockStream.BlockTemplateBlob.UnPack | blocktemplate/blocktemplateblob.go:17-23 | Succeeds iff the block parser does, and then the receiver holds the parsed block and the stream what is left |
| BlockStream.BlockTemplateBlob.Pack | blocktemplate/blocktemplateblob.go:9-15 | Appends exactly the encoding of the receiver's block |
| BlockStream.WriteHeader | blocktemplate/block.go:14-36 | Appends exactly the header's encoding |
| BlockStream.WriteTx | blocktemplate/transaction.go:76-118 | Appends exactly the transaction's encoding, with its loops over inputs and outputs |
| Template.StratumServer.FetchBlockTemplate | stratum/blocks.go:45-100 | A reply is stored iff its tip is new (no template, another previous hash, or an empty one and a greater height), its blob parses with an output, and the first output as an int64 is at most the expected reward; what is stored is, field by field, the reply's with that reward and the rest as fees; otherwise the old template stays |
| Template.AcceptedRewardFits | stratum/blocks.go:89-96 | Whatever int64 the daemon expects, the reward and fees of an accepted template are non-negative int64 amounts that add up to it iff the first output is below 2^63 |
| Template.NegativeRewardIsAccepted | stratum/blocks.go:89-96 | For every first output from 2^63 on there is a reply that is accepted with a negative reward |
| Template.Copy | stratum/miner.go:144-155 | Copying into a slice overwrites those bytes and no others |
| Template.NextBlob | stratum/blocks.go:29-43 | The issued blob is the conversion of the template with extra nonce and instance id at the reserved offset |
| Template.BuildShareBuffer | stratum/miner.go:143-155 | The share buffer is the given template's, which for processShare is the current one, with the job's extra nonce, the instance id and the decoded nonce written over it in place |
| Template.BufferBytes | stratum/miner.go:143-155 | The issued and the submitted buffer byte by byte: the nonce at offsets 39 to 42, at the reserved offset the extra nonce with its most significant byte first and then the instance id, elsewhere the template |
| Template.JudgedIsIssued | stratum/miner.go:143-155 | The buffer judged on the current template is the one issued from the job's template with only the nonce replaced, for every extra nonce and nonce, iff the two templates have the same length and reserved offset and agree outside the patched bytes |
| Template.SameHeightReplacement | stratum/handlers.go:85-93 | A template can be replaced by an acceptable one of the same height; jobs of the old one pass the height test, and all their shares are judged on other bytes than were issued |
| Template.NoncePatchIsExact | stratum/miner.go:154-155 | For every block long enough, overwriting bytes 39 to 42 changes its nonce and nothing else, whatever the bytes, iff the two versions and the timestamp take seven bytes |
| Template.UsualHeadersFit | blocktemplate/block.go:14-30 | One-byte versions and a timestamp in [2^28, 2^35) take seven bytes |
| Template.ExtraPatch | stratum/blocks.go:35-39 | Overwriting bytes inside Extra of an encoded block gives the encoding of the block with those Extra bytes changed |
| Template.ShareIsStructured | stratum/miner.go:143-155 | The submitted bytes parse to the template's block with the miner's nonce and the job's eight reserved bytes, nothing left over |
| Template.ShareBuffersDiffer | stratum/miner.go:143-155 | For one template, different (extra nonce, nonce) pairs give different buffers iff the two fields do not overlap |
| Hex.SpellChainNonce | payouts/unlocker.go:113-121 | The loop spells a header's nonce as its eight hexadecimal digits with the byte pairs reversed |
| Hex.NonceTestIsExact | payouts/unlocker.go:113-123 | The unlocker's comparison holds iff the header's nonce is the one whose little-endian bytes the text spells |
| Template.NoncePipeline | stratum/miner.go:154-187 | For every template, extra nonce and accepted nonce text, the candidate recorded for the share passes the unlocker's test against a header iff that carries the nonce of the submitted block: a block found on the chain is never taken for an orphan by this test |
| Difficulty.ReverseBytes | util/util.go:58-64 | The loop fills a fresh array with the bytes in reverse |
| Difficulty.GetHashDifficulty | util/util.go:35-44 | None iff the little-endian value is 0, otherwise the floor quotient of 2^256-1 by it |
| Difficulty.GetTargetHex | util/util.go:25-33 | The eight characters spell, little-endian, the top 32 bits of floor((2^256-1)/diff), padding included |
| Difficulty.TargetExamples | util/util_test.go:9-21 | The two targets that the repository's test expects, and the difficulties of two short hashes |
| Difficulty.DifficultyIsTarget | util/util.go:35-44 | A non-zero hash reaches a difficulty iff its value is at most floor((2^256-1)/diff) |
| Difficulty.TargetSoundness | util/util.go:25-44 | A 32-byte hash whose top word is below the advertised word is always accepted, and an accepted one never has a top word above it |
| Jobs.Job.Submit | stratum/miner.go:42-50 | True iff the nonce was submitted before; the nonce is recorded either way |
| Jobs.Session.GetJob | stratum/miner.go:57-78 | No job iff the session already has the template's height, be it another template; otherwise one new job with the endpoint's next number and extra nonce, its blob the conversion of the template patched with them, the session's window staying the last four issued, neighbours at different heights |
| Jobs.Session.PushJob | stratum/miner.go:80-88 | With fewer than four jobs the job is appended, otherwise the oldest is dropped for it |
| Jobs.LatestFour | stratum/miner.go:80-88 | The window holds the four latest jobs in the order they were issued, or all if there are fewer |
| Jobs.Session.FindJob | stratum/miner.go:90-99 | Finds a job iff one of the last four issued has the id; while fewer than 2^64 jobs were issued it is the only one ever issued with it |
| Jobs.FormatNatInjective | stratum/miner.go:68 | Different job numbers have different ids |
| Jobs.Judge | stratum/miner.go:157-238 | Bad hash, found block, low difficulty and good share are told apart by the hash value against the two targets, for any two difficulties: one that is not positive is always reached |
| Jobs.VerdictByDifficulty | stratum/miner.go:170-238 | A hash that is the claimed one and not 0 finds a block iff the whole part of 2^256-1 over its value reaches the block difficulty, is too easy iff it reaches neither, and is a good share otherwise |
| Jobs.SubmitTo | stratum/handlers.go:75-93 | Each refusal iff its condition; a well-formed nonce is used up even when the job is stale; otherwise the verdict is on the hash of the current template's buffer with the job's extra nonce and the nonce, which is the issued buffer with only the nonce replaced if the templates agree outside the patched bytes |
| Jobs.HandleSubmit | stratum/handlers.go:63-97 | Each reply iff its condition, for the job found in the session's window; the verdict is on the current template's buffer with that job's extra nonce; no other job's submissions change |
| ShareProtocol.ShareUniqueness | stratum/miner.go:42-99 | In every interleaving of any sessions and threads at the atomic operations of the source, with at most 2^32 extra nonces drawn, no (extra nonce, nonce) pair passes twice |
| ShareProtocol.PowMemberIsExact | stratum/miner.go:184-187 | The text sent to the dedupe set determines extra nonce, nonce and instance id |
| ShareProtocol.NoMemberSentTwice | storage/redis.go:185 | Under the same bound, and with nothing asked of what miners send, an endpoint never sends the same member to the dedupe set twice |
| ShareProtocol.WrapAroundRepeats | stratum/miner.go:64 | The bound is tight: for every accepted nonce a run with 2^32 + 1 draws passes the same pair twice |
| ShareProtocol.RunKeeps | stratum/miner.go:42-99 | In every interleaving all holders of an extra nonce drew different numbers, and each nonce passed at most once on a job |
| Upstream.SickIsHistory | rpc/rpc.go:211-233 | After any sequence of events an upstream is sick iff some suffix of it has at least five failures and no five successes in a row |
| Upstream.FailsAreHistory | rpc/rpc.go:211-222 | The count of failures that a client reports is the number of failures that found it healthy |
| Upstream.RPCClient.MarkSick | rpc/rpc.go:211-222 | The counters stay the replay of the history with one more failure |
| Upstream.RPCClient.MarkAlive | rpc/rpc.go:224-233 | The counters stay the replay of the history with one more success |
| Upstream.RPCClient.Sick | rpc/rpc.go:205-209 | The flag answers the history's question |
| Upstream.RPCClient.Check | rpc/rpc.go:196-203 | Passes iff the request was answered and the history, this success included, is not a sick one |
| Upstream.StratumServer.CheckUpstreams | stratum/stratum.go:536-581 | The selected upstream is the lowest-index one that passes, or 0; the process exits iff the latest 60 rounds were all all-sick |
| Upstream.StratumServer.SelectUpstream | stratum/stratum.go:540-549 | The loop checks every upstream once and keeps the first that passes |
| Upstream.StratumServer.AllSick | stratum/stratum.go:556-562 | True iff every upstream's history is a sick one |
| Upstream.StratumServer.PushRound | stratum/stratum.go:564-580 | The window stays the latest 60 rounds, and is fatal iff full and all true |

## Left out

- RedisClient.Client.WriteShare: the expiry of a hash rate set is recorded, and nothing ever expires in the model.
- RedisClient.Client.WriteImmatureBlock: HINCRBY fails beyond the int64 range and scores are exact only up to 2^53; the model's integers are unbounded.
- RedisClient.Client.CheckPoWExist: a failure of the purge command, which the source ignores, is a parameter; heights are natural numbers below 2^64.
- Unlocking.CalculateRewards: the fee is an exact rational in [0, 1] instead of a float64 percentage; the commented-out donation is absent; a reward beyond an int64, which proper runs exclude (Rewards.RewardFitsInt64), is clamped in the source and not here.
- Hex.NonceTestIsExact: strings.EqualFold also folds beyond ASCII; nonces are ASCII here.
- BlockStream.BlockTemplateBlob.UnPack: the fields of a receiver whose UnPack failed are not described, and a count too large to allocate panics in the source where the model only fails for counts of 2^63 and more.
- BlockStream.BlockTemplateBlob.Pack: writes that fail are left out, the stream being in memory.
- Template.NextBlob: ConvertBlob is foreign code and a function parameter; a template whose reserved offset lies outside its buffer, on which the source panics, is excluded.
- Template.StratumServer.FetchBlockTemplate: the next seed hash is left out, being passed on unread.
- Jobs.SubmitTo: ConvertBlob and RxHash are foreign code and together a function parameter of buffer and seed hash; a template whose reserved offset lies outside its buffer, on which the source panics, is excluded.
- Jobs.HandleSubmit: the per-miner counters and log lines are left out; the source dereferences the current template without a test, so a template is assumed.
- Jobs.Session.GetJob: takes the handlers of one session one at a time; ShareProtocol has the interleavings, and there the window of a session is not claimed to be in the order of the extra nonces.
- ShareProtocol.ShareUniqueness: the bound of 2^32 draws is necessary, as WrapAroundRepeats shows.
- Upstream.RPCClient.Check: the wire exchange is an outcome: answered, an error that marks the upstream sick, or one that does not.
- Upstream.StratumServer.CheckUpstreams: runs one round at a time, without requests of other threads between its loops.
- Rows.ConvertBlockResults: of a record that holds nil for a number only that is said; no such member is ever written (Rows.BlockRoundTrip).
- Rows.CandidateRoundTrip: logins and nonces are assumed colon-free; a score is an exact integer.
- Login, worker ids and address validation (stratum/handlers.go:21-48): plumbing around the job that GetJob issues.
- Statistics, luck, key scanning, the computation of hash rates and the web interface: reporting only.
- HTTP and JSON transport, TCP and TLS listeners, configuration and logging: no property of the core depends on them.
- blocktemplate/blockhashingblob.go and the hex helpers of the hash types: the same codec pieces again.
- Negative template heights, which the source casts to uint64 for the dedupe call (stratum/miner.go:212, 253): heights are natural numbers.
