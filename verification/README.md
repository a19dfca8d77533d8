# Intelli-Credit: a verified model

This project models the business logic of the Intelli-Credit service in Dafny and proves
properties of it over all inputs and all runs. Each part of the service appears twice: in its own
imperative form (classes with the source's fields, loops, in-place updates, or the atomic steps of
a concurrent protocol), and as specification functions. The imperative members are proved to
compute the specification functions; the lemmas are about those functions and relate them to
reference definitions that do not mention how the code works.

| file | models |
|---|---|
| `PaymentCycles.dfy`, `FraudDetector.dfy` | `services/fraud_detector.py`: payment graph, depth-first cycle search, findings |
| `PaymentOrder.dfy`, `DetectionLaws.dfy` | the same: what the order of payments decides, and what the graph, the ratio and the findings are |
| `RateLimit.dfy`, `RedisLimit.dfy` | `api/deps.py`: the sliding-window limiter and the Redis limiter as a protocol |
| `Json.dfy`, `Audit.dfy` | `services/audit.py`: JSON text and a reader of it, the hash chain, its verifier, the lock protocol |
| `Scoring.dfy`, `ScoringLaws.dfy` | `services/scoring.py`: Character, Collateral, overall score, recommendation, and what each input costs or earns |
| `Review.dfy`, `ReviewStore.dfy` | `services/scoring.py`, `api/routes.py`, `api/store.py`: notes, overrides, replay, CAM versions |
| `Durability.dfy` | the same, over runs with restarts anywhere: the score the next review step starts from, and the score shown |
| `FeatureStore.dfy` | `services/feature_store.py`: partitioned record files and the transaction log |
| `Jobs.dfy` | `services/jobs.py`: a job's writer and its pollers, field by field |
| `BankConduct.dfy` | `services/bank_parser.py`: conduct metrics and the date sort |
| `Base.dfy`, `Numeric.dfy`, `Sorting.dfy` | `models/base.py` enumerations and tables; `utils/numeric.py` and rounding; stable sorting |

`dafny verify dfyconfig.toml` checks the whole project.

## How the source's types are modelled

- Scores, times and loan amounts are `real`; payment and bank amounts are whole paise (`int`), so
  their rounding to two decimals is the identity, and the revenue the circular ratio divides by is in
  paise too. `round` ties to even, on exact values.
- A payment date is a day number; a job, worker, thread or poller is a natural number.
- SHA-256 and the ISO rendering of a naive timestamp are parameters. A digest is assumed to have
  64 characters and no colon. Nothing is assumed collision-free: the chain results conclude "equal,
  or two of the strings hashed in these trails collide".
- A dictionary written by `json.dumps(sort_keys=True)` is the list of its items in key order;
  a number in it is its literal.
- The sorted node tuple in a cycle's signature is a node set; the two have the same equality.
- The database is a set of tables in insertion order, each commit one step; a unique id is drawn
  from a counter. `analyze` is the value `base` it yields for the stored snapshot.
- Concurrent code is a state machine over its steps. A step that is not enabled changes nothing,
  so every list of steps is a run and the results hold for every interleaving.

## Where the code and its own documentation disagree

- `services/audit.py:1-5` says any deletion becomes detectable. Cutting rows off the end is not;
  every other deletion, reordering or repetition of rows is (`Audit.TamperingDetectedUnlessCutAtTheEnd`).
- `api/store.py:98-113` says the read endpoints are durable across restarts. After a restart they show
  the score row, which only the analysis writes, until the next note or override: an override is out of
  sight although nothing of it is lost (`Durability.RestartHidesAnOverride`). With restarts anywhere
  the score shown is the one of a process that never stopped exactly when, with a live object, the notes
  that some restart dropped make no difference in the end, and without one the review has left the
  analysis as it was (`Durability.RestartsAreInvisibleExactlyWhen`).
- `api/store.py:190-196` says the review workflow is durable across restarts. The score the next review
  step starts from is that of a process that never stopped exactly when in every dimension the dropped
  notes make no difference (`Durability.RestartsAreTransparentExactlyWhen`). `Review.ReplayCanUndoANote`
  is a run where a restart undoes a note, `Durability.AnEarlierRestartCanShowLater` one where a restart
  in the middle shows although all notes together cancel.
- `api/routes.py:463-470` derives the recommendation without the fraud report, and a restart brings
  that of the analysis back. So the rejection that `services/scoring.py:505` demands for critical fraud
  is in force exactly when no review step followed the last restart, or the scores alone reject
  (`Durability.FraudVetoInForceExactlyWhen`, `Durability.VetoGoesAndComesBack`); and a restart shows
  an approval again that an override had ended (`Durability.RestartRevivesAnApproval`).
- `api/routes.py:370-373` promises all CAM versions. After a restart and an override only the versions
  since are listed (`ReviewStore.WholeHistoryListedExactlyWhen`, `ReviewStore.AnOverrideCanHideVersionOne`);
  the table still holds them all.
- `services/fraud_detector.py:106-108` keeps the first cycle of each signature, so the order of payments
  can change the circular ratio, the CRITICAL finding and rejection
  (`PaymentOrder.PaymentOrderCanChangeTheRatio`, `Scoring.PaymentOrderCanDecideRejection`). The limiting
  flows do not depend on it exactly when all cycles of one signature have the same one.
- `api/deps.py:115` speaks of an atomic INCR + EXPIRE. They are two calls; a worker that crashes
  between them leaves a key that never expires, and once the client has used up its limit no later hit
  is ever allowed. From every other state some later hit is (`RedisLimit.AllowedAgainExactlyWhen`,
  `RedisLimit.ACrashCanLockOut`).
- `services/fraud_detector.py:27` names 8 as the maximum cycle length; the guard bounds the path,
  so cycles of 9 edges are reported (`PaymentCycles.NineEdgesAreReported`).
- `services/fraud_detector.py:154-167` reports a circular ratio above 15% as critical. The ratio is rounded
  first, so one from 15% to 15.005% is not (`DetectionLaws.RatioIs`).
- An application with no collateral scores 30, and pledging a weak first item lowers that
  (`Scoring.FirstCollateralCanLowerTheScore` says exactly when).

## Model

| member | source | states |
|---|---|---|
| `FraudDetector.BuildTransactionGraph` | services/fraud_detector.py:50-80 | one edge per positive debit and credit of a row with a named counterparty, then the supplemental edges, in order |
| `DetectionLaws.GraphIs` | services/fraud_detector.py:60-80 | bank edges are exactly the legs of rows with a named counterparty, one per positive amount; then one edge per supplemental one with its ends, date and amount or 0 |
| `DetectionLaws.SupplementalPaymentBackIsReported` | services/fraud_detector.py:60-114 | a debit to a counterparty and a supplemental payment back within 90 days have their signature reported |
| `FraudDetector.CycleSearch.Dfs` | services/fraud_detector.py:96-110 | the recursive search terminates, appends exactly the first walk of each new signature, and keeps the seen set equal to the signatures of the cycles |
| `FraudDetector.FindCycles` | services/fraud_detector.py:83-114 | the search over all start nodes returns the deduplicated walks that the next two rows characterise |
| `PaymentCycles.CyclesSoundAndComplete` | services/fraud_detector.py:83-114 | every reported list is a simple closed chain of 2 to 9 given edges within 90 days; every such chain has a reported one with its nodes and total; signatures are pairwise distinct |
| `PaymentCycles.WalksComplete` | services/fraud_detector.py:96-110 | from any partial path the search goes on to every qualifying cycle that extends it |
| `PaymentCycles.SpanIsWindow` | services/fraud_detector.py:102-103 | the latest-minus-earliest test holds exactly when all pairs of edges are within 90 days |
| `PaymentCycles.NineEdgesAreReported` | services/fraud_detector.py:99-110 | a ring of nine payments is reported as a cycle of nine edges |
| `PaymentCycles.MorePaymentsKeepSignatures` | services/fraud_detector.py:93-114 | adding payments anywhere never removes a reported signature |
| `PaymentCycles.MorePaymentsKeepHighFindings` | services/fraud_detector.py:127-152 | adding payments only adds to the multiset of HIGH totals, whatever the revenues |
| `PaymentCycles.DetectionIsOrderIndependent` | services/fraud_detector.py:83-152 | permuting or repeating payments changes neither the reported signatures nor the multiset of HIGH totals |
| `PaymentOrder.SomeOrderReports` | services/fraud_detector.py:106-108 | any qualifying cycle is the one reported for its signature under some order of the payments |
| `PaymentOrder.FlowsAreOrderFreeExactlyWhen` | services/fraud_detector.py:106-130 | the limiting flow reported for each signature is the same under every order exactly when all qualifying cycles of one signature have the same one |
| `PaymentOrder.RatioIsOrderFreeWhenFlowsAgree` | services/fraud_detector.py:127-154 | then no order of the payments changes the circular ratio |
| `PaymentOrder.PaymentOrderCanChangeTheRatio` | services/fraud_detector.py:127-154 | the same four payments in two orders, with ratios 10% and 20% |
| `FraudDetector.DetectCircularTrading` | services/fraud_detector.py:117-168 | the detection loop yields the findings and the ratio that the next three rows characterise |
| `PaymentCycles.FindingsDescribeCycles` | services/fraud_detector.py:127-152 | the HIGH findings are exactly the reported cycles above INR 10 lakhs, each with its closed chain of nodes, hops, total, and greatest distance between two dates |
| `PaymentCycles.LimitingFlowIs` | services/fraud_detector.py:130 | what each cycle adds to the circular value is the least of its amounts |
| `PaymentCycles.CircularValueIsAtMostHalf` | services/fraud_detector.py:124-131 | with positive payments the circular value is at most half of the reported cycles' totals |
| `DetectionLaws.RatioIs` | services/fraud_detector.py:154-155 | the ratio is the sum of the cycles' least amounts over the revenue to four decimals, 0 without revenue, and there is a CRITICAL finding exactly when that quotient exceeds 0.15005 |
| `DetectionLaws.CriticalFindingIs` | services/fraud_detector.py:155-167 | the CRITICAL finding comes last, carries the ratio, and lists the chain of every HIGH finding in order |
| `DetectionLaws.TwoPayments` | services/fraud_detector.py:117-168 | the whole answer on one payment each way: a cycle within 90 days, HIGH above INR 10 lakhs, CRITICAL above 15.005% of revenue |
| `FraudDetector.BankOnlyCyclesAreRoundTrips` | services/fraud_detector.py:61-70 | without supplemental edges every reported cycle is one debit to and one credit from the same counterparty, other than the borrower, and every such pair within the window has its signature reported |
| `RateLimit.InMemoryRateLimitBackend.Hit` | api/deps.py:98-106 | the in-place deque update and the answer equal the specification step, including the index error of a non-positive limit |
| `RateLimit.RefinesNaive` | api/deps.py:98-106 | in every run on a monotone clock the pruned deque is the client's accepted times no older than the window, and a hit is allowed exactly when the full history holds fewer than limit of those |
| `RateLimit.AcceptedHitsSpread` | api/deps.py:98-106 | any limit + 1 accepted hits of a client span strictly more than the window |
| `RateLimit.ClientsAreIsolated` | api/deps.py:95-106 | bucket and answer depend only on the client's own hits |
| `RateLimit.RetryAfterIsSufficientAndTight` | api/deps.py:103-104 | after a denial and any further denied hits, the next hit is allowed exactly when the true remaining wait has passed; the returned seconds exceed that wait, by at most one second, and suffice |
| `RedisLimit.RedisRateLimitBackend.Hit` | api/deps.py:123-131 | one worker's uninterrupted call performs the INCR, EXPIRE and answer steps of the protocol |
| `RedisLimit.GenerationAllowsFirstLimit` | api/deps.py:125-131 | under every interleaving and crash each lifetime of the key allows its first limit hits and no other |
| `RedisLimit.GenerationsAreSpaced` | api/deps.py:125-127 | lifetimes of the key start at least a window apart |
| `RedisLimit.AnyWindowAllowsLessThanTwiceLimit` | api/deps.py:123-131 | under every interleaving and crash, every half-open interval of one window length holds at most 2 * limit - 1 allowed hits |
| `RedisLimit.TheBoundIsAttained` | api/deps.py:123-131 | for every limit and window some run allows exactly that many, so the bound is the least one |
| `RedisLimit.OrphanedKeyNeverExpires` | api/deps.py:125-131 | a key without expiry and without a worker to set one outlives every continuation, and counts only up |
| `RedisLimit.OrphanedOnlyByCrash` | api/deps.py:125-127 | the only way into that state is a crash of the worker that created the key, between its INCR and EXPIRE |
| `RedisLimit.AllowedAgainExactlyWhen` | api/deps.py:123-131 | from every reachable state some continuation allows the client again exactly when the key is not orphaned or its count is below the limit |
| `RedisLimit.ACrashCanLockOut` | api/deps.py:125-131 | for every limit a run with one crash reaches a state from which no continuation allows another hit |
| `RedisLimit.HitCompletes` | api/deps.py:123-131 | a worker left alone finishes its hit and can serve the next, and a key it created expires one window later |
| `RedisLimit.RetryAfterIs` | api/deps.py:128-130 | a denial carries at least one second: with a TTL the key's remaining time within one second and at most the window, otherwise the window |
| `Json.TextInjective` | services/audit.py:46 | no two values share a JSON text, whatever follows it |
| `Json.TextReadBack` | services/audit.py:46 | a JSON reader gives back every value from its text, whatever follows |
| `Json.EscapesArePrintable` | services/audit.py:46 | the text is printable ASCII with hexadecimal digits in lower case |
| `Json.EscapesAreShortest` | services/audit.py:46 | printable characters stand for themselves, and a two-character escape is used wherever there is one |
| `Json.PlainTextIsLiteral` | services/audit.py:46 | a string of plain characters is written as it is |
| `Json.CharInjective` | services/audit.py:46 | the ASCII escaping of characters, surrogate pairs included, can be read back without ambiguity |
| `Audit.PreimageInjective` | services/audit.py:44-47 | the string `prev:payload` determines the previous hash and every hashed field |
| `Audit.PayloadFieldsAre` | services/audit.py:69-77 | each of the seven keys of the hashed payload holds its own field |
| `Audit.PayloadKeysAre` | services/audit.py:69-77 | the payload has no other key |
| `Audit.PayloadKeysAscend` | services/audit.py:46 | its keys are written in ascending order |
| `Audit.PreimageIs` | services/audit.py:44-47 | the hashed string, piece by piece |
| `Audit.PayloadReadBack` | services/audit.py:44-47 | what follows the colon reads back as exactly these fields |
| `Audit.TsSurvivesStorage` | services/audit.py:33-41 | the hashed timestamp survives the loss of its timezone exactly for naive and UTC values |
| `Audit.TsIsTheInstant` | services/audit.py:33-41 | an instant hashes alike in whatever zone its clock is read |
| `Audit.VerifyChain` | services/audit.py:105-122 | the loop returns true exactly when every row links to its predecessor and carries the hash of that link and its own fields |
| `Audit.AuditLog.RecordAudit` | services/audit.py:56-102 | appends one entry built on the current head and keeps the chain intact |
| `Audit.AppendKeepsIntact` | services/audit.py:64-92 | the hash taken from the aware timestamp at writing is the one recomputed from the stored naive one |
| `Audit.ChainNeverForks` | services/audit.py:27-30 | for any threads, interleaving and failures in the critical section the committed rows form one intact chain, which later steps only extend |
| `Audit.CommitAppendsTheDraft` | services/audit.py:66-92 | a commit by any thread adds one row on the current head with the caller's own fields and timestamp |
| `Audit.RecordingCompletes` | services/audit.py:64-93 | whenever the lock is free an idle thread left alone records its entry on the head and frees the lock |
| `Audit.FailureFreesTheLock` | services/audit.py:66-93 | an exception in the critical section frees the lock and adds nothing; a held lock is not given to another thread |
| `Audit.HeadBindsTrail` | services/audit.py:105-122 | two intact trails with the same last hash agree in length and in every hashed field, or two of their hashed strings collide |
| `Audit.ContentsDetermineHead` | services/audit.py:105-122 | conversely equal contents give equal heads, with no assumption on the hash |
| `Audit.TamperingDetectedUnlessCutAtTheEnd` | services/audit.py:105-122 | whatever rows of an intact trail are deleted, reordered or repeated, the result verifies exactly when it is a prefix |
| `Scoring.SynthesisIsMonotone` | services/scoring.py:501-511 | raising dimension scores never lowers overall score, band or recommendation |
| `Scoring.OverallInRange` | services/scoring.py:544 | the rounded weighted sum of scores in 0..100 lies in 0..100 |
| `Scoring.EqualScoresAreTheOverall` | models/base.py:84-90 | the weights sum to one: equal dimension scores are the overall score |
| `ScoringLaws.WeightsAre` | models/base.py:84-90 | a point of each dimension is worth 20, 30, 20, 15 and 15 per cent of a point overall, to two decimals |
| `ScoringLaws.BandsBeginAt` | models/base.py:129-139 | the bands begin at 35, 50, 65 and 80 |
| `Scoring.CriticalWeaknessesAre` | services/scoring.py:546 | the critical list names exactly the dimensions flagged critical |
| `Scoring.RecommendationMatchesBand` | services/scoring.py:501-511 | approval needs exactly a Good or better band and no critical weakness; non-rejection a Fair or better band and at most one; critical fraud always rejects |
| `Scoring.CharacterIs` | services/scoring.py:150-178 | fraud enters Character only as 0.6 times a penalty in 0..40, the two deductions taken together; the score and its critical flag are sound |
| `ScoringLaws.CleanCharacter` | services/scoring.py:97-178 | a clean record with promoter score p earns 71 + 0.25 p, rounded |
| `ScoringLaws.EachViolationCostsSix` | services/scoring.py:101-105 | each of the first five violations costs exactly 6 points, later ones none |
| `ScoringLaws.NoViolationListed` | services/scoring.py:101-105 | not compliant with no violation listed is worth 3 points more than a clean check |
| `ScoringLaws.ComplianceIsNoBonus` | services/scoring.py:101-105 | a compliant borrower scores as an unchecked one, whatever is listed |
| `ScoringLaws.LitigationCosts` | services/scoring.py:121-125 | each unit of litigation load costs a quarter point, up to a load of 100 |
| `ScoringLaws.OneFindingCosts` | services/scoring.py:150-178 | one finding costs 24, 15, 7.2 or 3 points by its severity |
| `ScoringLaws.WorseFindingsCostMore` | services/scoring.py:150-163 | a worse severity in any position never costs less |
| `ScoringLaws.CharacterIsMonotone` | services/scoring.py:97-178 | more violations, more litigation or a lower promoter score never raise Character |
| `ScoringLaws.PromoterIsClamped` | services/scoring.py:140-141 | a promoter score outside 0 to 100 counts as the nearer bound |
| `Scoring.MoreFraudNeverHelps` | services/scoring.py:150-178 | extending the findings never raises Character, overall score, band or recommendation |
| `Scoring.FraudCostsAtMost24` | services/scoring.py:150-178 | findings lower Character by 0 to 24 points, through clamps and rounding |
| `Scoring.CriticalCircularRatioRejects` | services/fraud_detector.py:154-168 | a circular ratio above 15% is exactly what makes the cycle findings critical, and then the application is rejected whatever its scores |
| `Scoring.PaymentOrderCanDecideRejection` | services/fraud_detector.py:154-168 | the same payments in two orders, one application approved and one rejected |
| `Scoring.ScoreCollateral` | services/scoring.py:339-390 | the accumulation loop computes the specified Collateral dimension |
| `ScoringLaws.CoverIs` | services/scoring.py:353-366 | each item adds 75, 60, 70, 65 or 50 per cent of its market value to the cover by its type |
| `ScoringLaws.CollateralScoreIs` | services/scoring.py:368-373 | the score falls by 0.6 a hundredth of LTV, is 45 from just above 0.75 to 11/12, and 0 beyond 5/3 |
| `ScoringLaws.WithinTheLimit` | services/scoring.py:368-373 | within the limit the score and 60 times the LTV make 100 up to rounding |
| `ScoringLaws.UnsecuredScores30` | services/scoring.py:343-351 | no collateral scores 30, which is not a critical weakness |
| `Scoring.CollateralIsMonotone` | services/scoring.py:353-373 | with collateral given, higher market values or more items never lower the score, a larger loan never raises it, LTV above 0.75 caps it at 45, worthless collateral scores 0 |
| `Scoring.AddedItemNeverHurts` | services/scoring.py:353-373 | adding an item at any place of a non-empty list never lowers the score |
| `Scoring.FirstCollateralCanLowerTheScore` | services/scoring.py:343-373 | a first item lowers the unsecured score of 30 exactly when 60 times the loan exceeds 70.005 times its net value |
| `Review.NoteImpactRange` | services/scoring.py:444-459 | a note's impact lies in -15..8, has the sentiment's sign, is zero only when neutral, and otherwise at least 0.8 in size |
| `ScoringLaws.NoteImpactIs` | services/scoring.py:444-459 | what each sentiment and severity moves a score by |
| `ScoringLaws.ImpactsGrowWithSeverity` | services/scoring.py:444-459 | a worse severity moves a score further, either way |
| `ScoringLaws.NoteMoves` | services/scoring.py:462-485 | a live note moves the dimension it names by its impact within 0 to 100, and no other |
| `ScoringLaws.ZeroImpactIsEvaluated` | services/scoring.py:467-469 | a stored impact of zero is evaluated again |
| `ScoringLaws.OverrideSets` | api/routes.py:507-516 | a live override sets the dimension it names, flagged below 30 and marked overridden, and no other |
| `Review.ReviewStaysConsistent` | api/routes.py:463-470 | over every sequence of notes and overrides scores stay in 0..100, critical means below 30, and overall, band, critical list and recommendation match the dimensions |
| `Review.NeutralNoteLiftsTheFraudVeto` | api/routes.py:436-438 | on an application rejected for critical fraud alone, a neutral note on no dimension changes no score and yields an approval |
| `Review.TrackIs` | api/routes.py:510-516 | live, a dimension is its last override (or its base) with the notes that came after |
| `Review.ReplayIs` | api/store.py:142-174 | replayed, a dimension is its last override alone, or its base with all its notes |
| `Review.ReplayAgreesExactlyWhen` | api/store.py:142-187 | replay gives the live dimension scores, overall score, band and critical list exactly when in every dimension the notes after its last override cancel out |
| `Review.ReplayAgreesWithoutTrailingNotes` | api/store.py:142-187 | in particular when no note follows its dimension's last override |
| `Review.ReplayedOverrideWins` | api/store.py:168-174 | a replayed overridden dimension equals its last override |
| `Review.SingleTrailingNoteCancels` | services/scoring.py:472-484 | one trailing note cancels only when neutral on a two-decimal score or pushing against the bound the score sits at |
| `Review.ReplayCanUndoANote` | api/store.py:168-174 | a concrete run whose live score is 38.75 and whose replayed score is 50 |
| `ReviewStore.LiveScore.ReplayAdjustments` | api/store.py:142-187 | the in-place replay over the dimension objects equals the replay function, leaving the recommendation as it was |
| `ReviewStore.LiveScore.ApplyNotes` | services/scoring.py:462-485 | the in-place note loop moves and flags exactly the noted dimensions |
| `ReviewStore.ReviewStore.AddNote` | api/routes.py:417-460 | rehydrates on a miss, applies the note live, stores it; no CAM version changes |
| `ReviewStore.ReviewStore.OverrideScore` | api/routes.py:497-546 | rehydrates on a miss, applies the override, adds the next CAM version to cache and table, stores the override |
| `ReviewStore.ReviewStore.FinalizeCam` | api/routes.py:549-569 | marks the last listed version final, in the cache and in its row |
| `ReviewStore.ReviewStore.RehydrateLive` | api/store.py:190-215 | returns the live object, or a new one holding the replayed base |
| `ReviewStore.ReviewStore.LoadCreditScore` | api/store.py:98-113 | returns the live score, or else the persisted snapshot |
| `ReviewStore.CamNumberingSurvivesRestarts` | api/routes.py:473-493 | over any run persisted versions are 1 to n with n = 1 + number of overrides, the cache is a suffix of them, and the next version is n + 1 on a hit or a miss |
| `ReviewStore.ListedLast` | api/store.py:116-124 | the last listed version is the last persisted one, from the cache or from the table |
| `ReviewStore.WholeHistoryListedExactlyWhen` | api/store.py:116-124 | the listing is the whole persisted history exactly when there was no restart or no override since the last one, and otherwise exactly the versions of the overrides since |
| `ReviewStore.AnOverrideCanHideVersionOne` | api/store.py:116-124 | after a restart and an override only version 2 is listed |
| `ReviewStore.CamVersionsArePermanent` | api/store.py:74-90 | no run alters an earlier version, and the latest changes only by becoming final |
| `ReviewStore.FinalizeMarksTheLast` | api/routes.py:556-569 | finalizing marks the last version, in table and listing, and changes nothing else of the versions |
| `ReviewStore.OverrideReportsTheLiveScore` | services/cam_generator.py:334-341 | the version an override writes is the next one, not final, and reports the score just produced |
| `Durability.CurrentScoreIs` | api/store.py:190-215 | after any run with restarts anywhere the score the next review step starts from is a function of the commands: each dimension its last override (or base) with the notes since, less those a restart dropped; the recommendation that of the analysis unless a review step followed the last restart |
| `Durability.DisplayedIs` | api/store.py:98-113 | the score shown is that one while there is a live object, and otherwise the analysis, whatever the review has made of it |
| `Durability.RestartsAreInvisibleExactlyWhen` | api/store.py:98-113 | with restarts anywhere the score shown, recommendation included, is the one an uninterrupted process would show exactly when, with a live object, the lost notes cancel in every dimension, and without one the review has left the analysis as it was |
| `Durability.OverridesAreHiddenAfterRestart` | api/store.py:98-113 | after a restart the dimensions shown are the uninterrupted ones exactly when there was no override and the notes leave every dimension where it was |
| `Durability.RestartHidesAnOverride` | api/store.py:98-113 | an override and a restart show the analysis although no note is lost, and the next note of any kind shows the override again |
| `Durability.DisplayedStaysConsistent` | api/store.py:98-113 | the score shown is always in range and everything derived in it matches |
| `Durability.KeptIsSuffix` | api/store.py:142-174 | the notes that count are the last of those after the override, and all of them while there is none |
| `Durability.RestartsAreTransparentExactlyWhen` | api/store.py:190-215 | with restarts anywhere the next review step starts from the scores of an uninterrupted process exactly when in every dimension the lost notes make no difference in the end |
| `Durability.LostNotesCancelExactlyWhen` | services/scoring.py:472-484 | in arithmetic, for every override: the kept notes take the overridden score, and what the lost notes made of it, to one score, by being equal after the first of them or being driven to one bound |
| `Durability.NotesPush` | services/scoring.py:472-484 | on any score a list of notes rounds once, at the first, and from then on acts as clamped additions of the impacts |
| `Durability.AnEarlierRestartCanShowLater` | api/store.py:142-187 | a concrete run with a restart in the middle that shows 97 where an uninterrupted process holds 98.5, although all trailing notes together cancel |
| `Durability.ReviewSurvivesRestarts` | api/store.py:190-215 | in particular when no note follows its dimension's last override the next review step starts from the uninterrupted scores |
| `Durability.CurrentScoreStaysConsistent` | api/store.py:190-215 | with restarts anywhere the scores the next review step starts from stay in 0..100 and flags, overall, band and critical list match them |
| `Durability.RecommendationIsCurrentExactlyWhen` | api/store.py:98-113 | over any run the recommendation shown is the one the full rule gives the score shown exactly when no review step followed the last restart, there is no critical fraud, or the scores alone reject |
| `Durability.FraudVetoInForceExactlyWhen` | api/store.py:98-113 | with critical fraud the application is shown as rejected exactly when no review step followed the last restart or the scores alone reject |
| `Durability.VetoGoesAndComesBack` | api/routes.py:436-438 | a neutral note on no dimension approves an application rejected for critical fraud alone, and a restart rejects it again |
| `Durability.RestartRevivesAnApproval` | api/store.py:98-113 | an approval ended by overriding any dimension to 0 is shown again after a restart |
| `FeatureStore.FeatureStore.WriteFeatures` | services/feature_store.py:42-74 | allocates the next version from the log and appends to the partition's file and the log |
| `FeatureStore.FeatureStore.NextVersion` | services/feature_store.py:76-82 | one more than the highest logged version, 1 when there is none |
| `FeatureStore.FeatureStore.ReadFeatures` | services/feature_store.py:84-96 | the scan returns the first record of the version, or the one with the highest version, or nothing |
| `FeatureStore.LogCounts` | services/feature_store.py:76-82 | the log's highest version is the number of the application's writes |
| `FeatureStore.MaxVersionIs` | services/feature_store.py:76-82 | the highest version among the application's WRITE entries, other entries not counting |
| `FeatureStore.PartitionIs` | services/feature_store.py:33-40 | a partition is the date and the industry with slashes replaced, or unclassified |
| `FeatureStore.FilesHoldVersions` | services/feature_store.py:102-110 | in whatever order files are walked they hold exactly the application's numbered writes |
| `FeatureStore.HistoryIsTheWriteOrder` | services/feature_store.py:98-110 | history is the application's writes in order, numbered 1 to n |
| `FeatureStore.ReadsRefineTheSequence` | services/feature_store.py:84-96 | reading v returns the v-th write or nothing, the default read the last write |
| `FeatureStore.ReadsArePermanent` | services/feature_store.py:84-96 | a version reads the same after any further writes |
| `Jobs.SnapshotsAreWhole` | services/jobs.py:43-51 | under every interleaving a completed snapshot carries the function's value and no error, a failed one the error and no result |
| `Jobs.PollReadsTheFields` | services/jobs.py:43-51 | whatever happens in between, a poll adds one snapshot, with the state, result and error the fields hold when each is read |
| `Jobs.PollsAreCurrent` | services/jobs.py:43-51 | a poll's state is not before the job's when the poll began, and a poll begun on a finished job reports its outcome |
| `Jobs.StatesOnlyMoveForward` | services/jobs.py:81-92 | successive state reads of a job only move from pending to running to one terminal state |
| `Jobs.SubmittedJobsStayKnown` | services/jobs.py:74-79 | a submitted id is found by every later get and stays tied to its function |
| `Jobs.FinishSettles` | services/jobs.py:81-92 | left to run, every job ends with its outcome in place |
| `Jobs.AdvancingCloses` | services/jobs.py:81-92 | from any reachable state the job's remaining writes end it, within the protocol |
| `Jobs.FinishStampsTwice` | services/jobs.py:81-92 | a run stamps the job twice and never changes what it was submitted with |
| `Jobs.SubmitStartsPending` | services/jobs.py:74-79 | a submitted job is pending, without result or error, and no other job changes |
| `Jobs.SharedJob.Execute` | services/jobs.py:81-92 | what the fields hold between one assignment and the next is exactly the protocol's sequence of writes, and the end is its end |
| `BankConduct.ComputeConduct` | services/bank_parser.py:86-108 | the dictionary grouping and the averages compute the specified metrics |
| `BankConduct.ParseStatement` | services/bank_parser.py:111-125 | rows come out by date, metrics are those of the rows as given, the period covers every row and ends on rows |
| `BankConduct.AverageBetweenExtremes` | services/bank_parser.py:90-103 | minimum <= monthly average <= peak for every non-empty statement |
| `BankConduct.ConductIsOrderFree` | services/bank_parser.py:86-108 | permuting the rows changes no metric |
| `BankConduct.OverdraftsMatchMinimum` | services/bank_parser.py:98-107 | overdrafts are reported exactly when the minimum balance is negative |
| `BankConduct.OneMoreRow` | services/bank_parser.py:86-108 | one more row adds its credit, debit, bounce and overdraft, and moves the extremes to its balance if outside them |
| `BankConduct.FirstRow` | services/bank_parser.py:86-108 | the metrics of one row are its own |
| `BankConduct.OneMonthAverage` | services/bank_parser.py:90-96 | the rows of one calendar month average to the rounded mean of their balances |
| `BankConduct.MonthsWeighTheSame` | services/bank_parser.py:90-96 | statements without a common month join with their numbers of months as weights |
| `BankConduct.NotLaterIs` | services/bank_parser.py:111-118 | dates compare by year, month and day |
| `Numeric.Round2Spec` | services/scoring.py:483 | rounding gives two decimals, is the identity exactly on them, and moves nothing by more than half a hundredth |
| `Numeric.HalfEvenSpec` | services/scoring.py:483 | rounding goes to a nearest integer and a tie to an even one |
| `Numeric.PushedIsClampedShift` | utils/numeric.py:15-17 | a list of additions clamped one by one is one shift by their sum, clamped to what it makes of 0 and of 100 |

## Left out

- Wiring, HTTP status codes, authentication, the 404 answers before an analysis, and the database session: I/O.
- Floating-point error: arithmetic is exact, so a binary tie that rounds otherwise is not modelled.
- `PaymentOrder.RatioIsOrderFreeWhenFlowsAgree`: one way only, because differing limiting flows of several signatures can add up to the same ratio; per signature `PaymentOrder.FlowsAreOrderFreeExactlyWhen` is exact.
- Fake-ITC findings, keyword tables, decay, ratios and the Capacity, Capital and Conditions scorers: the results hold for any sound values of those three dimensions.
- `RateLimit.AcceptedHitsSpread`: holds for calls of `hit` that do not overlap, as do the other results on the in-memory limiter. `rate_limiter` (api/deps.py:166) is a plain function that FastAPI runs on a thread pool and `hit` takes no lock; overlapping calls can check before either appends, and can prune each other's entries, which is not modelled.
- `FraudDetector.DetectCircularTrading`: the description texts of findings are not modelled.
- `RedisLimit.RedisRateLimitBackend.Hit`: the TTL answer is a parameter; `RedisLimit.RetryAfterIs` supposes it is within one second of the time left.
- Key eviction in Redis, and a clock that runs backwards: both break what the limiters assume.
- Several processes sharing one audit chain, or several workers with separate registries: the code does not promise anything there.
- `Durability.RestartsAreTransparentExactlyWhen`: the recommendation and the overriding officer are not compared, because replay does not restore them; the next review step derives the recommendation again, and `Durability.RestartsAreInvisibleExactlyWhen` includes it for the score shown.
- Repeated analysis of one application, explainability entries, CAM section texts and deltas, the application status set by finalize, and a crash inside a handler.
- Insertion order stands for the order of creation timestamps in the note, override and audit tables.
- `FeatureStore.HistoryIsTheWriteOrder`: a crash between the two appends, application ids that act as file patterns, and writes that overlap are not modelled; `write_features` takes no lock, so two overlapping writes of one application can allocate one version.
- The Celery and Databricks backends: foreign services.
