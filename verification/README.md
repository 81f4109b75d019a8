# hc-pool: a verified model of the Stratum pool's core

hc-pool hands mining jobs to Stratum v1 miners, checks the shares they send back, submits blocks, and keeps the
books. This project states what its core promises and proves it, for every input, every run and every interleaving.

- **Jobs and shares** (`Bytes`, `Script`, `Coinbase`, `CoinbaseReader`, `Payout`, `Merkle`, `MiningJob`). The pool serializes a coinbase
  and cuts its text in two around eight reserved bytes, which it finds by a text search. The miner glues its
  extranonces in between; the pool writes them into its one shared coinbase object. Both sides hash the same 80 bytes,
  whatever was checked before, and the full block sent to the node carries the coinbase the header commits to.
- **Signet** (`Signet`). A job is signed once (BIP 325). A verifier that strips the solution from the rebuilt block
  gets back exactly the 72 bytes that were signed, for every submission the lock lets through and every nonce.
- **Templates, jobs and sessions** (`JobsService`, `StratumClient`, `ShareHeader`, `ShareCheck`, `ShareLifecycle`,
  `MeasuredRuns`, `SessionWork`, `ShareLimits`, `ShareSegments`, `SessionStart`). The handlers are
  split at their awaits into atomic segments, and the theorems hold over all interleavings of these segments: what a
  credited share was checked against, how often a fingerprint and a header are credited, how much work
  a session is let through with, when a template is stale, when
  two jobs share an id, when mining may start, which device a session is bound to and how often a challenge serves.
- **Rate cap** (`TokenBucket`). Bounds over whole runs of tries, refills and parameter changes, under a clock that may
  step back.
- **Books and difficulty** (`Statistics`, `OverlappingShares`, `Vardiff`, `Difficulty`). The write-behind ledger against the simple one, the
  power of two taken by smearing bits of a 32-bit word, and the comparison that decides whether a share is a block.

Conventions. The double hash and the signature are parameters: every theorem holds for every such function. Clock
readings and answers of the backend and the node are inputs. Objects the program changes in place are classes whose
methods equal a function of the old state; the lemmas are about these functions. Where the code does less than one
would expect, the code is kept, and the lemma states exactly when it does what is expected (names ending in `Iff`)
or exhibits the failing case.

Where the code and its comments differ, the code is followed: `src/models/TokenBucket.ts:16-18` says that a parameter
change scales the units in the bucket, but the code only caps them.

## Model

| member | source | states |
|---|---|---|
| Script.NumberReadBack | src/models/MiningJob.ts:53-60 | a reader that takes the top bit of the last byte as the sign gets every height up to 0x7fffffff back from its encoding |
| Script.EncodingIsMinimal | src/models/MiningJob.ts:53-63 | the encoding of a height wastes no byte: empty only for 0, and a zero last byte only behind a byte with its top bit set |
| Script.ReadHeightOfPush | src/models/MiningJob.ts:53-71 | a reader of the coinbase script ("Specification" of BIP 34), which reads signed script numbers, gets the height back, for every height up to 0x7fffffff and whatever follows the push |
| Script.ParseOfEncode | src/services/signet-block-signing.service.ts:178-190 | parsing undoes push encoding over all length forms, before any further bytes |
| Script.PushIsShortest | src/services/signet-block-signing.service.ts:178-180 | no shorter push header announces as many bytes |
| Script.CompilePushPushes | src/services/signet-block-signing.service.ts:178-180 | compiled data is one operation, and an interpreter pushes exactly that data for it |
| Script.CompilePushIsShort | src/services/signet-block-signing.service.ts:178-180 | exactly the empty string, 1 to 16 and -1 become one byte |
| Script.ReadCompactSizeRoundTrip | src/services/signet-block-signing.service.ts:217-234 | a length prefix is read back with its width, over all the widths the code writes |
| Script.CompactSizeIsShortest | src/services/signet-block-signing.service.ts:217-234 | no shorter text is read as the same length |
| CoinbaseReader.ReadNonWitness | src/models/MiningJob.ts:174-183 | a reader of transactions that knows nothing of the writer reads the hashed bytes back as version 2, one null input with the script, the outputs in order and no lock time |
| CoinbaseReader.ReadWithWitness | src/models/StratumV1Client.ts:1090 | and the bytes that go into the block as the same with its witness |
| CoinbaseReader.WeightCountsWitnessOnce | src/models/MiningJob.ts:125-129 | the weight counts each byte four times but marker and witness once |
| Coinbase.InputScriptDistinctiveIff | src/models/MiningJob.ts:53-82 | a fresh input script starts with bytes that cannot occur in front of it, exactly when the height is positive or an identifier is kept |
| Coinbase.NoEarlierMatch | src/models/MiningJob.ts:185-188 | the script's text matches nowhere in version, count, null outpoint and length, neither at a byte nor across two half bytes |
| Coinbase.SearchFindsInput | src/models/MiningJob.ts:175-188 | the first match of the text search is the input script itself, also after extranonces were written into it |
| Coinbase.SearchFindsFreshInputIff | src/models/MiningJob.ts:53-82 | for a job as built, the search is right if and only if the height is positive or an identifier is present |
| Coinbase.PartsCutAroundExtranonces | src/models/MiningJob.ts:174-192 | the two parts are exactly the bytes before and after the last eight script bytes |
| Coinbase.MinerAndPoolAgree | src/models/MiningJob.ts:187-222 | part 1, both extranonces and part 2 decode to the non-witness serialization of the coinbase as the pool rewrites it |
| Coinbase.ShareCheckIsHistoryIndependent | src/models/MiningJob.ts:216-225 | after any run of earlier share checks, a submission yields the script it yields on a fresh job |
| Coinbase.EarlierCheckHarmlessIff | src/models/stratum-messages/MiningSubmitMessage.ts:28-33 | an earlier check leaves no trace if and only if its extranonce2 text decoded to four bytes, which nothing checks |
| Coinbase.TruncatedHeightSurvivesIff | src/models/MiningJob.ts:63-71 | a four-byte height without an identifier is read back after a submission if and only if the first extranonce byte happens to be the height's last |
| Coinbase.HeightSurvivesIff | src/models/MiningJob.ts:63-71 | over all pairs of eight-digit extranonces the height stays readable if and only if it is at most 0x7fffff or an identifier follows it |
| Coinbase.IdentifierSurvives | src/models/MiningJob.ts:62-71 | up to height 0x7fffff no extranonce overwrites any byte of the identifier |
| Payout.CreateOutputs | src/models/MiningJob.ts:255-281 | one output a recipient, the exact floor for all but the first, summing to the reward; fails exactly on an undecodable address or an empty list |
| Payout.FloorsMissLittle | src/models/MiningJob.ts:271-278 | the floors together fall short of the whole by less than one unit a recipient |
| Payout.RewardIsConserved | src/models/MiningJob.ts:100-123 | with the zero-value outputs added, everything paid out is exactly the reward, nothing is negative, and the first recipient gains under one unit a recipient |
| Payout.RecipientsShareTheWhole | src/models/StratumV1Client.ts:845-862 | whatever fee is configured, the percentages are nonnegative and sum to 100; the developer comes first and gets the configured fee if it lies between 0 and 100 and 1.5 otherwise, the miner the rest or everything |
| Merkle.ExtractBranchOfProof | src/services/stratum-v1-jobs.service.ts:149-162 | dropping the root and the first entry of a proof for leaf 0 leaves the sibling branch |
| Merkle.NextLayerAt | src/services/stratum-v1-jobs.service.ts:149-152 | every node hashes its two children one layer below, and an odd last child with itself |
| Merkle.OddLastNodeCountsTwice | src/services/stratum-v1-jobs.service.ts:149-152 | an odd layer has the root it has with its last node written twice |
| Merkle.SmallRoots | src/services/stratum-v1-jobs.service.ts:149-157 | the roots of one, two and three transactions in terms of the hash |
| Merkle.BranchServesEveryLeaf | src/services/stratum-v1-jobs.service.ts:145-162 | the branch taken beside the placeholder coinbase folds every other coinbase hash to the full root with that leaf, for any number of transactions |
| Merkle.BranchLength | src/services/stratum-v1-jobs.service.ts:159-162 | the branch has as many entries as halvings are needed to reach one node |
| Merkle.CalculateMerkleRootHash | src/models/MiningJob.ts:238-253 | the rolling 64-byte buffer computes the fold of the decoded branch |
| MiningJob.FoldIsRoot | src/models/MiningJob.ts:227-231 | the fold over a template's own branch text is the Merkle root of the block rebuilt with that coinbase |
| MiningJob.LeavesAre | src/services/stratum-v1-jobs.service.ts:143-147 | the leaves are the coinbase's hash and then the non-witness hash of every other transaction in its place |
| MiningJob.HeaderLayout | src/models/StratumV1Client.ts:1062 | version, previous hash, root, time, bits and nonce stand at their places in 80 bytes, and there is a header exactly when time and nonce fit four bytes |
| MiningJob.MaskFlipsItsBits | src/models/MiningJob.ts:211-214 | a version mask turns over exactly the bits it names within the 32-bit word |
| MiningJob.Job.constructor | src/models/MiningJob.ts:31-142 | the coinbase carries height, kept identifier, padding, payouts and extra outputs, and the parts match it when the search is right |
| MiningJob.ExtraOutputsAre | src/models/MiningJob.ts:94-123 | behind the payouts come, byte for byte, the message up to its last height and the commitment of BIP 141 |
| MiningJob.IdentifierIsKeptIff | src/models/MiningJob.ts:72-139 | the identifier is kept if and only if the script has at most 100 bytes and the block at most four million weight units with it |
| MiningJob.FreshPartsMatch | src/models/MiningJob.ts:73-141 | the parts of a new job match its coinbase also when the identifier was dropped for length or weight |
| MiningJob.Job.RebuildCoinbaseParts | src/models/MiningJob.ts:174-192 | the parts are cut at the first match of the script in the serialized text |
| MiningJob.Job.CopyAndUpdateBlock | src/models/MiningJob.ts:194-236 | the block holds the job's own coinbase object, now with these extranonces, and its root is the Merkle root over that coinbase; parts stay right for four-byte extranonces |
| MiningJob.Job.ApplySignedCoinbase | src/models/MiningJob.ts:144-156 | the job takes a fresh copy of the signed coinbase, pins extranonce2, time and mask, and its parts match the signed bytes |
| MiningJob.SwapWordsAt | src/models/MiningJob.ts:327-338 | byte r of each word goes to place 3 - r of the same word |
| MiningJob.SwapWordsTwice | src/models/MiningJob.ts:327-338 | swapping words twice is the identity, so a miner recovers the previous hash |
| MiningJob.SwapEndianWords | src/models/MiningJob.ts:327-338 | the buffer loop computes the word swap |
| MiningJob.Job.Response | src/models/MiningJob.ts:302-325 | the texts of the notification: swapped previous hash, parts, branch, unpadded version and bits, padded time, the locked one of a locked job; they notify of the job in the sense of the header theorem |
| Bytes.UnpaddedWordReadBackIff | src/models/MiningJob.ts:317-318 | a reader of eight digits recovers an unpadded word if and only if it is at least 0x10000000 |
| Bytes.PaddedWordReadBack | src/models/MiningJob.ts:319 | and the padded time always |
| MiningJob.MinerHeaderIsPoolHeader | src/models/MiningJob.ts:194-253 | from the texts of the notification alone a miner that reads numbers builds the same 80 bytes the pool checks, for every extranonce pair, mask, time and nonce |
| MiningJob.RebuildShare | src/models/StratumV1Client.ts:1054-1090 | the checked header is that of every miner who was notified of this job; its bytes are masked version, previous hash, root, time, bits and nonce at their places; and the full block serializes the coinbase the header commits to |
| MiningJob.OtherBytesConcat | src/models/StratumV1Client.ts:1090 | behind the coinbase the block carries every other transaction in full, in order |
| MiningJob.LaterShareShowsThroughEarlierBlock | src/models/MiningJob.ts:207-225 | an earlier block keeps its root but shows the coinbase of a later share, so it must be serialized before the next await |
| Signet.SerializeSignetData | src/services/signet-block-signing.service.ts:169-176 | of the filled buffer: 72 bytes, version first, previous hash at 4, root at 36, time at 68 |
| Signet.SignetDataIsHeaderFront | src/services/signet-block-signing.service.ts:169-176 | these are the first 72 bytes of the header with the same fields |
| Signet.DataToSignNames | src/services/signet-block-signing.service.ts:102-117 | what is signed of a block: its version, previous hash and time at their places, and the Merkle root over the coinbase with the push of ec c7 da a2 appended to the commitment |
| Signet.SerializeCompactSize | src/services/signet-block-signing.service.ts:217-234 | the buffer holds the CompactSize form, and larger values are refused |
| Signet.FindWitnessCommitmentOutputIndex | src/services/signet-block-signing.service.ts:182-204 | the first output that is a commitment, or -1 exactly when there is none |
| Signet.CommitmentIff | src/services/signet-block-signing.service.ts:186-201 | a script is a commitment if and only if it starts with OP_RETURN and its first push of 36 bytes or more starts with aa 21 a9 ed |
| Signet.SolutionRoundTrip | src/services/signet-block-signing.service.ts:125-131 | stripping an appended solution ("Specification" of BIP 325) gives it back and leaves exactly the script that was signed |
| Signet.ParseSolutionRoundTrip | src/services/signet-block-signing.service.ts:119-123 | the solution's input script is read back, with the empty witness stack and nothing after it |
| Signet.SignBlock | src/services/signet-block-signing.service.ts:62-140 | every error exactly under its condition; on success only the first commitment output changes, and it carries a signature of the block with the bare header |
| Signet.JobCommitmentIsUnique | src/models/MiningJob.ts:94-123 | in a job's coinbase the first match of the code and the last match of BIP 141 are the same, last output; a bootstrap message is never taken for it |
| Signet.OnlyOwnCommitment | src/services/signet-block-signing.service.ts:93-100 | a job's coinbase has a commitment to sign at if and only if segwit is on and the template has one |
| Signet.SignedBlockVerifies | src/services/signet-block-signing.service.ts:93-139 | a BIP 325 verifier of the signed block rebuilds exactly the signed bytes and runs the signature made for them |
| Signet.ExtranonceCaseIsIrrelevant | src/models/MiningJob.ts:158-172 | an extranonce2 that passes the case-insensitive lock writes the same script bytes |
| Signet.ExtranonceFixedPoint | src/models/MiningJob.ts:216-225 | writing the locked extranonces again leaves the signed script as it is |
| Signet.SigningLocks | src/models/StratumV1Client.ts:899-917 | signing at the output the search finds yields a coinbase locked to the signed bytes |
| Signet.PrepareSignetLockedJob | src/models/StratumV1Client.ts:887-918 | succeeds exactly when signing is off, or key and challenge agree and there is a commitment; then the job is locked to the signed bytes |
| Signet.RebuildLockedShare | src/models/StratumV1Client.ts:1035-1061 | a block is rebuilt if and only if the submission matches the lock, and then a verifier sees the signed bytes and their signature, whatever the nonce; the lock is kept |
| Bytes.ParseOfNatToHex | src/models/StratumV1Client.ts:153-156 | a number's hexadecimal text is parsed back to it |
| Bytes.ParseHexIntForms | src/models/StratumV1Client.ts:153-156 | a sign, 0x, spaces in front and anything behind the digits are read as `parseInt` reads them, and no digits as 0 |
| JobsService.NatToHexInjective | src/services/stratum-v1-jobs.service.ts:312-317 | ids made from different counters differ |
| JobsService.StratumV1JobsService.MarkTemplatesStale | src/services/stratum-v1-jobs.service.ts:220-226 | every retained template is stale afterwards, and one already stale keeps its time |
| JobsService.StratumV1JobsService.PruneOldState | src/services/stratum-v1-jobs.service.ts:228-244 | a template or a job is kept, unchanged, if and only if it was created at most 300000 ms ago |
| JobsService.StratumV1JobsService.Emit | src/services/stratum-v1-jobs.service.ts:177-204 | the template is stored under the next id, and the other templates and the jobs that are kept are exactly those created at most 300000 ms ago |
| JobsService.StratumV1JobsService.RemoveJobsBySession | src/services/stratum-v1-jobs.service.ts:288-294 | a job is kept, unchanged, if and only if its owner is another session |
| JobsService.EmissionAddsEntry | src/services/stratum-v1-jobs.service.ts:177-203 | a new template's id was not in use |
| JobsService.SupersededMeans | src/services/stratum-v1-jobs.service.ts:194-198 | superseded means that a clearing emission followed, dated by the first of them |
| JobsService.EmissionKeepsMeaning | src/services/stratum-v1-jobs.service.ts:194-244 | under any clock: a template is retained exactly until an emission finds it expired, stale exactly when superseded, and since that moment; stale keys stay within retained keys |
| JobsService.SupersededForGood | src/services/stratum-v1-jobs.service.ts:220-226 | whatever is emitted later, a superseded template keeps the time of the first clear, and one not superseded becomes so if and only if a clearing emission is among the later ones |
| JobsService.UsableIff | src/services/stratum-v1-jobs.service.ts:296-306 | the template test passes exactly for templates that are not expired and were superseded not at all or within the grace time |
| StratumClient.AcceptedIff | src/models/StratumV1Client.ts:948-1091 | a share is accepted exactly when it is new, on an own job of a usable template, under the lock, hard enough and within the class cap; a block goes out exactly when the template is also fresh and the network's difficulty met |
| StratumClient.VerdictIff | src/models/StratumV1Client.ts:948-1085 | one exact condition for each refusal, in the order of the tests |
| StratumClient.StratumV1Client.CheckSubmission | src/models/StratumV1Client.ts:948-1091 | lookups and weighing together return that verdict, remember the fingerprint text in every case, and charge the bucket for exactly the shares that passed every other test |
| ShareCheck.HandleMiningSubmission | src/models/StratumV1Client.ts:948-1091 | from the texts of a submission: the judged header is that of the job as registered and of every notified solver, and a block is sent exactly on the verdict that says so, beginning with the judged header |
| ShareCheck.LockTestsAgree | src/models/MiningJob.ts:158-172 | the lookup's lock test is the job's own: unlocked, or extranonce2 in either case, time and mask all equal |
| ShareCheck.ValidBlockIsAccepted | src/models/StratumV1Client.ts:1070-1091 | a new submission under the lock on an own job of a fresh template whose hash meets the target is accepted as a block, under every monotone rounding |
| ShareCheck.SolvedBlockIsSent | src/models/StratumV1Client.ts:948-1091 | end to end, a notified miner's header that meets the target is sent at the front of the block, if the gate is open and the session difficulty at most the network's |
| StratumClient.SameTextMeansSameFieldsIff | src/models/stratum-messages/MiningSubmitMessage.ts:68-71 | submissions with one fingerprint text and full-width fields are the same if and only if their masks are equally long |
| StratumClient.MaskWidthBlursFingerprints | src/models/stratum-messages/MiningSubmitMessage.ts:68-71 | with masks of different width, shares of jobs 1 and 11 (hexadecimal) with different times have one fingerprint text |
| StratumClient.FingerprintIsTheHeaderIff | src/models/stratum-messages/MiningSubmitMessage.ts:68-71 | on one job, with lower-case full-width fields and masks of one width up to eight digits, equal fingerprint texts if and only if equal header values, the mask taken as the 32-bit word that reaches the header |
| StratumClient.OneHeaderOneFingerprintIff | src/models/MiningJob.ts:211-214 | for canonical submissions on one job with masks of width w, equal header values always mean one fingerprint if and only if w is at most 8 |
| StratumClient.WideMaskIsTheSameHeader | src/models/MiningJob.ts:211-214 | from nine digits on, masks that differ in the leading digit give the same header values and different fingerprints, and both are canonical |
| ShareHeader.ValuesMakeTheHeader | src/models/StratumV1Client.ts:1054-1062 | equal header values give one 80-byte header, for every hash, template, coinbase and owner |
| ShareHeader.HeaderTellsTheValues | src/models/StratumV1Client.ts:1054-1062 | one header of one job comes of equal values, or the two coinbases or nodes above them are different inputs of one hash |
| ShareHeader.OneHeaderIsOneFingerprint | src/models/stratum-messages/MiningSubmitMessage.ts:68-71 | among canonical submissions on one job with masks up to eight digits, one fingerprint is one header, and one header is one fingerprint but for such a collision |
| ShareHeader.CheckKeepsHead | src/models/MiningJob.ts:216-225 | a share check with a four-byte extranonce2 leaves the job's coinbase as built but for the eight extranonce bytes |
| ShareHeader.ResendTemplate | src/models/StratumV1Client.ts:1228-1235 | two jobs one session is sent for one template and one payout list rebuild the same header for every submission |
| StratumClient.RespelledIsTheSameShare | src/models/StratumV1Client.ts:153-156 | a leading zero in front of the nonce changes the fingerprint but neither the header values nor any lock's answer |
| StratumClient.SessionIsCapped | src/models/StratumV1Client.ts:295-368 | from a first policy on, without a bypass, an enforced gate lets through at most the highest rate times the time the clock advanced, over every run of policy refreshes and submissions |
| SessionWork.SessionWorkIsCapped | src/models/StratumV1Client.ts:948-1085 | the same over every run of all sessions: the difficulties a session's admitted shares were checked at, summed and times 2^32, are at most the highest rate times the seconds its bucket's clock advanced |
| StratumClient.UncappedAdmitsAll | src/models/StratumV1Client.ts:295-336 | a session without a bucket is let through with everything it submits |
| StratumClient.PolicyFailsClosed | src/models/StratumV1Client.ts:331-368 | whatever the backend returns, only a bypass is uncapped, a positive target is the rate but at least 1, a missing or nonpositive one means 5000 hashes a second, and a refresh adds no credit |
| StratumClient.StratumV1Client.ApplyClassPolicy | src/models/StratumV1Client.ts:331-368 | the session's bucket is dropped, created empty or updated as the policy says |
| StratumClient.StratumV1Client.ClassBucketGateRejected | src/models/StratumV1Client.ts:295-318 | rejects if and only if enforced, with a bucket, and the difficulty times 2^32 is not affordable; a bucket is charged also when the cap is only observed |
| StratumClient.StratumV1Client.CheckDifficulty | src/models/StratumV1Client.ts:1209-1219 | the session difficulty changes only on a different suggestion, and then lies within its bounds |
| ShareSegments.RunServiceSegment | src/services/stratum-v1-jobs.service.ts:177-294 | the service object takes every segment as the step of the runs does |
| ShareSegments.RunClientSegment | src/models/StratumV1Client.ts:805-1113 | and so does a session object: deliveries, checks, policies and difficulty changes |
| ShareLifecycle.StepKeeps | src/models/StratumV1Client.ts:805-1116 | every atomic segment of every handler keeps the protocol's invariant |
| ShareLifecycle.CreditsAreJustified | src/models/StratumV1Client.ts:948-1113 | in every run a credited share was checked against a job built under its id and owned by the crediting session, from an emitted, unexpired template superseded for no more than the grace time; and a block went out exactly when that template was fresh and the network's difficulty met |
| ShareLifecycle.AtMostOneCreditPerFingerprint | src/models/StratumV1Client.ts:948-962 | in every run no fingerprint text is credited twice to one session between two clears |
| ShareLifecycle.AtMostOneCreditPerShare | src/models/StratumV1Client.ts:948-1113 | in every run of canonically spelled submissions, with masks of one width up to eight digits, no two credits of one session between two clears share job and header values |
| MeasuredRuns.NoHeaderCreditedTwice | src/models/StratumV1Client.ts:948-1113 | and so no rebuilt header of a job is credited twice between two clears, but for a collision of the hash |
| MeasuredRuns.BlocksMeetTheTarget | src/models/StratumV1Client.ts:1054-1091 | in every run in which shares are weighed by their rebuilt headers, every block that goes out is of a template nothing has superseded and meets its target, or misses it only where rounding makes the two quotients one |
| MeasuredRuns.CreditsMeetTheirDifficulty | src/models/StratumV1Client.ts:1054-1113 | in every such run a credited share's rebuilt header has at least the difficulty it was checked at |
| ShareLifecycle.RunRemembers | src/models/StratumV1Client.ts:807-811 | over every run a session's epoch counts exactly the clearing templates delivered to it, and without one it forgets no fingerprint |
| ShareLifecycle.StaysRegisteredIff | src/services/stratum-v1-jobs.service.ts:228-294 | a step loses a registered job if and only if it registers another under its id, ends its owner's session, or is an emission more than five minutes after its creation |
| ShareLifecycle.RegisteredJobIsFound | src/services/stratum-v1-jobs.service.ts:279-294 | from its registration on, over every run without such a step, a job is found for its owner |
| ShareLifecycle.SameJobIdIffNoAddBetween | src/services/stratum-v1-jobs.service.ts:279-317 | over every run, two jobs are built under one id if and only if no job is registered between the two buildings |
| ShareLimits.RespelledShareIsCreditedAgain | src/models/StratumV1Client.ts:948-1113 | from every state that accepts a share, the share and its respelling are both credited, for one job and one header |
| ShareLimits.WideMaskShareIsCreditedAgain | src/models/StratumV1Client.ts:948-1113 | on an unlocked job, two masks of nine digits or more that differ in the leading digit are both credited, for one header |
| ShareLimits.FirstJobReachable | src/models/StratumV1Client.ts:805-877 | a run of five steps from the start reaches a session with one registered job |
| ShareLimits.RespelledShareReachable | src/models/StratumV1Client.ts:948-1113 | there the premises of a respelled share hold |
| ShareLimits.ClearedShareReachable | src/models/StratumV1Client.ts:948-1113 | one submission later those of a share that counts again after a clear hold |
| ShareLimits.ResentTemplateReachable | src/models/StratumV1Client.ts:1228-1235 | one resend later those of the same header on a second job hold |
| ShareLimits.WaitingBlockReachable | src/models/StratumV1Client.ts:1086-1091 | one block later those of a block that waits for the node hold |
| ShareLimits.ResentTemplateIsCreditedAgain | src/models/StratumV1Client.ts:1228-1235 | the same values on a second job with the same owner, template and coinbase, and so the same header, are credited again |
| ShareLimits.ClearLetsAShareCountAgain | src/models/StratumV1Client.ts:807-811 | a share that was a duplicate before a clear is accepted after it while its template is in the grace time |
| ShareLifecycle.SharesCreditedAtCheckedDifficulty | src/models/StratumV1Client.ts:1070-1113 | every credited share met the difficulty it was checked at, and one that is no block is credited at that difficulty |
| ShareLimits.BlockCreditedAtLaterDifficulty | src/models/StratumV1Client.ts:1091-1113 | a block's share is credited at whatever the session difficulty is once the node has answered |
| ShareLifecycle.StalenessInEveryState | src/services/stratum-v1-jobs.service.ts:194-204 | in every reachable state the maps mean what the emissions say |
| ShareLimits.OverlappingSendsCollide | src/models/StratumV1Client.ts:867-877 | two sessions that both build before either registers get one job id, the later registration wins and the other miner's shares are turned away |
| ShareLimits.OverlappingSendsReachable | src/models/StratumV1Client.ts:805-877 | such a state is reached as soon as one template is delivered to two sessions |
| SessionStart.Session.PresentChallenge | src/models/StratumV1Client.ts:579-598 | exactly the pending, unexpired challenge with the same id, device and wallet is let through to the backend |
| SessionStart.Session.BindDevice | src/models/StratumV1Client.ts:652-655 | after the binding no device, wallet and challenge id match at any time, until a challenge is issued again |
| SessionStart.Session.RecheckAnswered | src/models/StratumV1Client.ts:230-251 | a denied repeat of the authorization leaves a session that needs a device unable to start |
| SessionStart.NoStartAfterRevocation | src/models/StratumV1Client.ts:239-247 | in every run, between a revocation and a later start a device was authorized again |
| SessionStart.Session.FinishMessage | src/models/StratumV1Client.ts:775-786 | mining starts exactly when subscribed, authorized, not yet started, and bound if required |
| SessionStart.StartsWhenReady | src/models/StratumV1Client.ts:775-786 | in the runs, the end of a message starts mining if and only if these four hold |
| SessionStart.AllowedAuthorizationBinds | src/models/StratumV1Client.ts:631-655 | an allowed authorization binds the device and wallet of its own message, a denied one changes nothing |
| SessionStart.RunSegment | src/models/StratumV1Client.ts:486-786 | the session object takes every segment exactly as the step of the runs does |
| SessionStart.StepKeeps | src/models/StratumV1Client.ts:486-786 | every segment of every handler keeps: a bound device stands, the pending challenge is unspent, waiting handlers hold presented or verified challenges, and events are justified |
| SessionStart.StartsOnceAndJustified | src/models/StratumV1Client.ts:775-786 | in every run mining starts at most once, after a subscription and an authorization, and when required while an authorized device stands unrevoked |
| SessionStart.BoundDeviceStands | src/models/StratumV1Client.ts:579-655 | in every run a bound device and wallet were issued a challenge, presented it in time, were verified and then authorized, in this order, with no revocation since |
| SessionStart.SpentChallengeNeedsReissue | src/models/StratumV1Client.ts:579-655 | in every run a challenge presented after a binding was issued between the two |
| SessionStart.ServesTwiceOnlyIfPresentedBefore | src/models/StratumV1Client.ts:579-655 | in every run a challenge issued once binds twice only through two different presentations that both came before the first binding |
| SessionStart.ChallengeServesTwice | src/models/StratumV1Client.ts:579-655 | and from every state with a pending challenge two such presentations do both bind |
| TokenBucket.Bucket.Refill | src/models/TokenBucket.ts:77-88 | only a clock past the last refill adds units, up to the capacity |
| TokenBucket.RefillAddsTime | src/models/TokenBucket.ts:77-88 | a reading past the last one adds the rate times the seconds between, or fills the bucket; another changes nothing |
| TokenBucket.CapacityIsTheLarger | src/models/TokenBucket.ts:43-50 | the capacity is an hour at the rate or four shares at the floor, whichever is more |
| TokenBucket.CostOfDifficulty | src/models/TokenBucket.ts:132-139 | a share costs its difficulty times 2^32 |
| TokenBucket.Bucket.TryConsume | src/models/TokenBucket.ts:95-108 | accepts exactly a cost that fits the capacity and the refilled units, and then takes it |
| TokenBucket.Bucket.UpdateParams | src/models/TokenBucket.ts:56-72 | time so far counts at the old rate, then rate and capacity change and the units are capped |
| TokenBucket.UpdateLosesOnlyOverflow | src/models/TokenBucket.ts:56-72 | a change of parameters keeps every unit earned at the old rate but what exceeds the new capacity |
| TokenBucket.Bucket.Snapshot | src/models/TokenBucket.ts:113-129 | the reported drain lies between 0 and 100 percent and is 0 only for a full bucket |
| TokenBucket.RunBound | src/models/TokenBucket.ts:56-108 | over every window of any run, under any clock: units stay between 0 and the capacity, and units left plus work accepted are at most units held plus rate times forward clock progress |
| TokenBucket.CreatedRunBound | src/models/TokenBucket.ts:26-108 | since its creation a bucket accepts no more work than its highest rate times the time the clock advanced |
| TokenBucket.RefillsInvisible | src/models/TokenBucket.ts:77-119 | under a nondecreasing clock, refills and snapshots inserted anywhere change no later decision and no later state |
| TokenBucket.RefillsInvisibleFrom | src/models/TokenBucket.ts:77-119 | the same for two buckets that differ by a pending refill, over any later window |
| TokenBucket.RefillsShowIff | src/models/TokenBucket.ts:77-119 | for every sequence of clock readings, some bucket and some placement of tries, updates and refills at them has a refill that changes a decision, if and only if the readings step back somewhere |
| TokenBucket.AcceptedEventuallyIff | src/models/TokenBucket.ts:95-103 | a share is accepted at some time, with nothing else spent, if and only if it fits the capacity |
| TokenBucket.WaitSuffices | src/models/TokenBucket.ts:83-107 | waiting cost divided by rate seconds is enough |
| TokenBucket.FourSharesAtTheFloor | src/models/TokenBucket.ts:43-50 | from any sound state with the capacity for it, after one such wait four shares at the difficulty floor are accepted in a row |
| Statistics.ClientStatistics.AddShares | src/models/StratumV1ClientStatistics.ts:41-124 | totals, slot, rows and window after one share, in all four branches |
| Statistics.WriteBehindIsFaithful | src/models/StratumV1ClientStatistics.ts:57-124 | for serialized calls and a nondecreasing clock: one row a slot, closed rows and in-memory totals exact, the current row exact for a prefix whose missing shares are dated at most a minute past the last save |
| Statistics.RowIsWrittenIff | src/models/StratumV1ClientStatistics.ts:100-123 | within a slot the row is written if and only if the last save is more than 60000 ms ago, and then with both totals |
| Statistics.WorkIsConserved | src/models/StratumV1ClientStatistics.ts:57-117 | rows and unsaved work together are all work accepted |
| OverlappingShares.SerialCallIsAddShare | src/models/StratumV1ClientStatistics.ts:57-124 | a call split at its awaits that nothing interrupts is the step of the serialized ledger |
| OverlappingShares.MemoryIsExactIff | src/models/StratumV1ClientStatistics.ts:73-99 | over every interleaving of calls with a nondecreasing clock, the count in memory is never above that of its slot, and equal to it if and only if at most one call took the slot-change branch into this slot; so is the total, for positive difficulties |
| OverlappingShares.OverlapAtSlotChangeLosesShare | src/models/StratumV1ClientStatistics.ts:73-99 | from every state, two calls that both start before either has changed the slot end with the second share alone in memory and two rows for one slot |
| Statistics.CacheIsLastShares | src/models/StratumV1ClientStatistics.ts:48-54 | the window is always the last 31 shares, or all of them |
| Statistics.ClientStatistics.GetSuggestedDifficulty | src/models/StratumV1ClientStatistics.ts:126-152 | with five shares or more the measured target outside the dead zone is rounded; with fewer, a sixth of the difficulty is, after a minute |
| Statistics.EvenWindowMeasures | src/models/StratumV1ClientStatistics.ts:137-145 | n shares of one difficulty at even gaps measure n / (n - 1) of that difficulty a gap, in seconds, times the wanted pace; there is no measure only without a gap |
| Vardiff.NothingSuggestedIff | src/models/StratumV1ClientStatistics.ts:147-151 | nothing is suggested if and only if target and difficulty are within a factor of two |
| Vardiff.NearestBelowFloor | src/models/StratumV1ClientStatistics.ts:155-160 | below the minimum the minimum is suggested, and nothing for zero |
| Vardiff.ClampIsNearest | src/models/StratumV1Client.ts:135-143 | the clamped difficulty is the nearest one within the bounds |
| Vardiff.HighBitIsLargestPower | src/models/StratumV1ClientStatistics.ts:161-167 | smearing a word's bits and subtracting the half gives the largest power of two up to the number, from 1 to 2^31 |
| Vardiff.NearestIsLargestPower | src/models/StratumV1ClientStatistics.ts:154-175 | from 1 on the first call already returns that power |
| Vardiff.NearestIsRight | src/models/StratumV1ClientStatistics.ts:168-173 | below 1 the recursion by factors of 100 ends with r such that r <= v < 2r |
| Vardiff.NearestRightIff | src/models/StratumV1ClientStatistics.ts:154-175 | for every v from the minimum on, the recursion ends with r <= v < 2r if and only if v < 2^31 |
| Vardiff.NearestNeverReturns | src/models/StratumV1ClientStatistics.ts:161-173 | on multiples of 2^32 the recursion never returns |
| Vardiff.SettlesInOneCheck | src/models/StratumV1Client.ts:1209-1219 | for a steady target a second check changes nothing, bounds are kept, and the second check sends again exactly when the suggestion lies outside the bounds and the clamped difficulty outside the dead zone |
| Difficulty.Le256IsValue | src/utils/difficulty.utils.ts:52-57 | the fold from the back is the 256-bit little-endian value of the hash |
| Difficulty.ShareMeetsDifficultyIff | src/utils/difficulty.utils.ts:6-27 | with exact quotients a share has a difficulty if and only if hash times difficulty is at most the target of difficulty 1 |
| Difficulty.CompactTargetIs | src/utils/difficulty.utils.ts:29-42 | nBits name a target by its first three bytes and its length in bytes |
| Difficulty.MetTargetMeansNetworkDifficulty | src/utils/difficulty.utils.ts:6-50 | a hash that meets the target has at least the network's difficulty, under every monotone rounding of the quotients |
| Difficulty.ExactDifficultyIsTheTargetTest | src/utils/difficulty.utils.ts:6-50 | without rounding, comparing difficulties is comparing with the target, both ways |
| Difficulty.NearMissPassesIff | src/utils/difficulty.utils.ts:21-48 | a hash above the target passes the comparison of difficulties if and only if rounding makes the two quotients one |
| Difficulty.ValidBlockSubmittedIff | src/models/StratumV1Client.ts:1070-1091 | a hash that meets the target of a fresh template is submitted exactly when its share meets the session difficulty and the gate lets it pass |
| Difficulty.NoValidBlockWithheld | src/models/StratumV1Client.ts:1070-1091 | with a session difficulty up to the network's and an open gate no valid block is withheld |
| Difficulty.DecodersAgreeIff | src/services/stratum-v1-jobs.service.ts:246-262 | the two nBits decoders give one target if and only if bit 23 is clear or the exponent is 0 |
| Difficulty.NetworkDifficultiesAgree | src/services/stratum-v1-jobs.service.ts:246-267 | where they do, the template's and the share check's network difficulty are one, under any rounding |

## Left out

- The double hash, secp256k1 signing and address decoding are parameters; no theorem needs more than that they are functions. Fingerprints are compared as texts, which takes the hash of `src/models/stratum-messages/MiningSubmitMessage.ts:68-71` to be free of collisions.
- merkle-lib and bitcoinjs-lib are specified, not modelled: the Merkle tree, transaction layouts, script parsing and push encoding are written down directly, and the proof of leaf 0 is taken to be leaf, siblings and root as `src/services/stratum-v1-jobs.service.ts:159` says.
- Floating point: difficulties, units and percentages are real numbers; only the 32-bit shifts and the monotone rounding of quotients are modelled as the machine has them. Amounts are unbounded integers, written as eight bytes.
- RxJS, sockets, timers, JSON, message validation and the ORM are a free sequence of steps and inputs. A step whose write or call fails is the step that gives a handler up.
- When an emission clears jobs (`src/services/stratum-v1-jobs.service.ts:84-97`) is a free input for each template; so is whether a delivered template clears a session's fingerprints, because `src/models/StratumV1Client.ts:1234` sets the flag on the shared template later. Such a resend is a delivery that clears nothing.
- Bytes.ParseHexInt: exact integers; numbers above 53 bits are not rounded, and texts of more than 1024 bits are not taken for zero.
- Script.ReadHeightOfPush: reads the push as BIP 34 words it, a byte count and then the script number; nodes that expect heights 1 to 16 as constant opcodes are not modelled.
- MiningJob.MinerHeaderIsPoolHeader: for extranonce texts of eight digits; the session id always is one, and an unchecked extranonce2 that is not breaks the agreement as `Coinbase.EarlierCheckHarmlessIff` shows.
- MiningJob.Job.constructor: takes the payout outputs as given (`Payout.CreateOutputs` computes them) and heights up to 0x7fffffff; a job for height 0 without an identifier is built, but its parts are wrong. For height 0, an identifier that starts with a control character is not covered.
- Signet.PrepareSignetLockedJob: payout scripts do not start with OP_RETURN, the bootstrap message is UTF-8 of at most 65535 bytes, and signatures are shorter than four gigabytes.
- ShareLifecycle.AtMostOneCreditPerFingerprint: per text of a submission and between clears. Per header it fails for other spellings (`ShareLimits.RespelledShareIsCreditedAgain`) and holds for canonical ones with masks up to eight digits (`MeasuredRuns.NoHeaderCreditedTwice`), per job (`ShareLimits.ResentTemplateIsCreditedAgain`).
- ShareLifecycle.SharesCreditedAtCheckedDifficulty: says nothing about the amount credited for a block, which is read after an await.
- ShareLifecycle.CreditsAreJustified: share and network difficulty and the lock of a job are inputs of the steps; `MeasuredRuns.BlocksMeetTheTarget` takes the difficulties from the rebuilt headers, and `ShareCheck.HandleMiningSubmission` and `Signet.PrepareSignetLockedJob` say what code computes them. A header that cannot be serialized is a handler that gives up.
- SessionWork.SessionWorkIsCapped: for the difficulty a share was checked at; a block is credited at a later one (`ShareLimits.BlockCreditedAtLaterDifficulty`).
- MiningJob.Job.Response: template versions and bits are words without a sign.
- SessionStart.BoundDeviceStands: the challenge is unexpired when presented; both answers may come later. The events carry no device with a revocation, so a denied recheck of an earlier device counts against the one bound since, as in the code.
- Vardiff.NearestPowerOfTwo: counts calls and is unfinished when they run out, since the recursion need not end.
- Statistics.WriteBehindIsFaithful: calls do not overlap; `OverlappingShares.MemoryIsExactIff` says what is left when they do, for count and total in memory; rows under overlap are only written when their write is issued, and when a closed row is exact is not stated. The displayed hash rate is left out.
- Block templates fetched over several processes (`src/services/bitcoin-rpc.service.ts:112-146`), the grace time's parsing, other ORM queries, controllers, notifications and metrics are left out.
