# Verified model of the MEI back end

A Dafny model of the algorithms and stateful protocols behind the intelligence back end, with proofs
of what they guarantee. Each module follows one part of the program:

- `RateLimiterProtocol`, `RateLimiter`, `RateLimiterProofs`, `RateLimiterOutcomes`: the LLM request queue as a transition
  system over tasks, permits, the pacing lock and a clock; the class whose methods take exactly its
  steps; safety, rate bound, progress, termination, outcomes and pauses over all runs.
- `Chunker`, `ChunkerText`: greedy paragraph packing, its optimality, its true size bound, its round trips, and what
  it keeps of the text.
- `Simhash`, `SimhashText`: the 64-bit text fingerprint, and what it is of a text.
- `Ingestion`, `IngestionProofs`, `IngestionRows`: document submission, the `duplicate_of` pointers over all runs, and
  the row each submission leaves.
- `Forecasts`, `Calibration`, `CalibrationProofs`, `CalibrationSamples`, `CalibrationRefinement`: Brier scoring,
  reliability buckets and the forecasts they speak about.
- `RiskScoring`, `RiskEngine`, `RiskProofs`, `RiskBreakdown`, `RiskHistory`, `RiskTies`, `RiskReview`: readings, the
  weighted score, which readings count, reproducibility, the clamped adjustment and the second-model review.
- `Disagreement`, `DisagreementPairs`: analyst positions, and the grouped query and the plain function against
  contradicting rows.
- `Alerts`, `AlertRules`: monitors, the evaluation pass and when it alerts or fails.
- `EntityResolution`, `EntityAnswers`, `Extraction`, `ExtractionProofs`, `ExtractionFiling`: name resolution, event
  clustering, the accounting of every mention and where each event and claim is filed.
- `Scheduler`, `SchedulerExclusion`, `SchedulerTimes`: the background scheduler as a transition system, exactly when
  it runs a job at most once at a time, and when it runs one at all.
- `Investigation`: the investigation runner with a failure at any point.
- `Latest`, `Sums`, `Wrappers`: newest matching rows, sums over sequences, optional values and results.

Conventions. Floats are exact reals; times are reals too, forecast dates integers. An id is the index of its row, so ids grow in
creation order. A nullable column is an `Option`; a raised exception is an `Err` or a fault input that
strikes before the failing call has any effect. A state-changing method is proved equal to a function
of the old state (`Apply`, `Submitted`, `Acted`, `Persisted`, `Executed`), and the lemmas are about that
function and its runs.

Inputs. The model takes as arbitrary inputs: clock readings, the outcome of every awaited call, fetched
bodies and extracted text, model replies and extraction results, resolved dates, fuzzy scores, SQL
pattern matching, lower-casing and hashing, and the database's pick among equally new rows where a query
orders by time alone.

Of lower-casing only one thing is assumed, and only where stated: it leaves text made of lower-case ASCII
letters, digits and spaces alone. An event's `actors` are read as its stored links. A scheduled task keeps the
interval it read when it claimed, since the session does not expire rows on commit
(src/mei/infrastructure/database/session.py:22).

In the rate limiter a request's start is the moment its timestamp is recorded, since nothing is awaited
between the two; sleeps are never short and the clock never goes back. Any waiter may be served next,
which includes the first-come order of the real primitives.

Deleting a schedule removes its executions with it; the model marks the schedule deleted and keeps the rows so
that numbers stay fixed, and no later step finds them.

A scheduler run is called prompt when jobs start from the loop only and every spawned task has claimed before the
loop looks again.

Where code and documentation disagree the code is modelled: `chunk_text` keeps an oversized paragraph
whole (`Chunker.BoundHoldsIff`); an evaluation pass lists one page of 50 monitors although it is meant
to evaluate every enabled one (`Alerts.EveryMonitorIsListedIff`, `Alerts.FiftyFirstMonitorIsSkipped`).

## Model

| member | source | states |
|---|---|---|
| RateLimiter.AsyncRateLimiter.constructor | src/mei/infrastructure/llm/rate_limiter.py:28-45 | each setting is the caller's, or exactly its minimum when smaller; all permits are free and the protocol invariant holds |
| RateLimiter.AsyncRateLimiter.AcquirePermit | src/mei/infrastructure/llm/rate_limiter.py:84-85 | takes one permit and goes to the pacing lock, or straight to the call when pacing is off, keeping the invariant |
| RateLimiter.AsyncRateLimiter.TakePacingLock | src/mei/infrastructure/llm/rate_limiter.py:52 | exactly the lock step of the protocol |
| RateLimiter.AsyncRateLimiter.MeasureGap | src/mei/infrastructure/llm/rate_limiter.py:53-57 | sleeps for exactly the missing part of the interval, or not at all |
| RateLimiter.AsyncRateLimiter.FinishPacingSleep | src/mei/infrastructure/llm/rate_limiter.py:57-58 | wakes no earlier than the end of the pacing sleep, still holding the lock |
| RateLimiter.AsyncRateLimiter.StampAndCall | src/mei/infrastructure/llm/rate_limiter.py:58 | records the time, frees the lock and starts the request in one step |
| RateLimiter.AsyncRateLimiter.ConcludeCall | src/mei/infrastructure/llm/rate_limiter.py:86-118 | returns, raises or backs off as the outcome and retry count dictate, and frees the permit on every path: the step whose outcomes and pauses `RateLimiterOutcomes` states |
| RateLimiter.AsyncRateLimiter.FinishBackoff | src/mei/infrastructure/llm/rate_limiter.py:120 | queues again only after the backoff pause |
| RateLimiter.AsyncRateLimiter.CancelCall | src/mei/infrastructure/llm/rate_limiter.py:84-120 | cancellation at any suspension point gives back exactly what the task held |
| RateLimiter.LimiterRegistry.GetShared | src/mei/infrastructure/llm/rate_limiter.py:123-141 | a new key gets a limiter with the caller's settings; a later caller gets the same object and changes nothing |
| RateLimiterProofs.StepKeepsInvariant | src/mei/infrastructure/llm/rate_limiter.py:47-120 | every step of any task keeps permits, lock ownership, spacing, waiting times and attempt counts consistent |
| RateLimiterProofs.SafeOverRuns | src/mei/infrastructure/llm/rate_limiter.py:80-120 | in every run free permits plus holders is the maximum, in-flight requests never exceed it, one task at most is in the pacing region, a task in backoff holds nothing, and no call makes more than max_retries + 1 requests |
| RateLimiterProofs.StartsAreSpaced | src/mei/infrastructure/llm/rate_limiter.py:47-58 | any two request starts of any run are at least their distance times the interval apart, whatever the tasks and retries |
| RateLimiterProofs.WindowHoldsFewStarts | src/mei/infrastructure/llm/rate_limiter.py:47-58 | a window of length W holds at most floor(W / interval) + 1 starts |
| RateLimiterProofs.Progress | src/mei/infrastructure/llm/rate_limiter.py:80-120 | no deadlock: an unfinished task can move after some time, or some holder of what it waits for can |
| RateLimiterProofs.RunsTerminate | src/mei/infrastructure/llm/rate_limiter.py:82-120 | without new calls, the moves made plus the work left never exceed the initial work |
| RateLimiterProofs.MovesAreBounded | src/mei/infrastructure/llm/rate_limiter.py:82-120 | from a reachable state the tasks make boundedly many moves, and when the bound is used up all have finished |
| RateLimiterProofs.ReturnsIffARequestSucceeded | src/mei/infrastructure/llm/rate_limiter.py:86-97 | a call returns exactly when one of its own requests succeeded |
| RateLimiterProofs.FinishedStays | src/mei/infrastructure/llm/rate_limiter.py:86-97 | a finished call is never touched again |
| RateLimiterOutcomes.RaisesAtOnceIff | src/mei/infrastructure/llm/rate_limiter.py:89-97 | over every run a call raises an error not worth retrying exactly when one of its requests failed so, and is cancelled exactly when a cancellation hit it |
| RateLimiterOutcomes.RaisesWhenExhaustedIff | src/mei/infrastructure/llm/rate_limiter.py:80-97 | a call raises an error worth retrying exactly when its requests failed so max_retries + 1 times |
| RateLimiterOutcomes.UnfinishedIff | src/mei/infrastructure/llm/rate_limiter.py:80-120 | a call goes on exactly while no request succeeded, none failed for good, it was not cancelled and a retry is left |
| RateLimiterOutcomes.PauseIsWaitedOut | src/mei/infrastructure/llm/rate_limiter.py:99-120 | after its n-th failure a call starts no further request before the hint, or base times 2 to the n-1 plus jitter, cut at the cap, has passed |
| RateLimiterProofs.BackoffIsBounded | src/mei/infrastructure/llm/rate_limiter.py:101-108 | a pause never exceeds the cap, obeys a server hint below it, and doubles up to jitter before reaching it |
| Chunker.ChunkText | src/mei/infrastructure/collection/parser.py:23-43 | the string-building loop computes the joined groups of the greedy packing, of paragraphs that keep all of the text but white space |
| Chunker.ChunksAreOptimal | src/mei/infrastructure/collection/parser.py:28-43 | the chunks are a packing of the paragraphs in order, and no packing into consecutive groups has fewer |
| Chunker.GreedyStaysAhead | src/mei/infrastructure/collection/parser.py:32-38 | packing any suffix greedily takes no more groups than any packing of the whole |
| Chunker.BoundHoldsIff | src/mei/infrastructure/collection/parser.py:24-43 | every chunk is within max_chars iff every paragraph is, or a text without paragraphs fits; an oversized chunk is one such piece standing alone |
| Chunker.OversizedGroups | src/mei/infrastructure/collection/parser.py:32-38 | the oversized chunks are exactly the oversized paragraphs |
| Chunker.OversizedParagraphIsKept | src/mei/infrastructure/collection/parser.py:24-43 | any single paragraph over the limit comes back whole |
| Chunker.DefaultLimitIsExceeded | src/mei/infrastructure/collection/parser.py:4-43 | a concrete text of 4001 letters that the default limit of 4000 does not split |
| Chunker.ParagraphsAreClean | src/mei/infrastructure/collection/parser.py:28 | every paragraph is non-empty, stripped and free of blank-line separators |
| Chunker.ParagraphsOfJoined | src/mei/infrastructure/collection/parser.py:28-33 | splitting clean paragraphs joined by blank lines gives them back |
| Chunker.JoinedChunksKeepParagraphs | src/mei/infrastructure/collection/parser.py:28-43 | joining the chunks and splitting again recovers the paragraphs in order |
| Chunker.RechunkingIsIdempotent | src/mei/infrastructure/collection/parser.py:23-43 | chunking the joined chunks, at any limit, equals chunking the text at that limit |
| Chunker.ChunkIsFixpoint | src/mei/infrastructure/collection/parser.py:23-43 | every chunk chunks to itself |
| ChunkerText.ParagraphsKeepInk | src/mei/infrastructure/collection/parser.py:28 | the paragraphs hold every non-white-space character of the text, in order |
| ChunkerText.ChunksKeepInk | src/mei/infrastructure/collection/parser.py:23-43 | and so do the chunks, at every limit |
| ChunkerText.ParagraphsBreakAtBlankLines | src/mei/infrastructure/collection/parser.py:28 | a text with a blank line has the paragraphs before its first one followed by those after it |
| ChunkerText.ParagraphsOfPiece | src/mei/infrastructure/collection/parser.py:28 | a piece without a blank line is one paragraph, what is left between the white space around it, or none |
| ChunkerText.WhiteSpaceIs | src/mei/infrastructure/collection/parser.py:28 | the characters that stripping removes |
| ChunkerText.ChunksAreEager | src/mei/infrastructure/collection/parser.py:29-41 | the chunks are the joined groups of the one packing in which no group has room for the next paragraph |
| ChunkerText.EagerPackingExists | src/mei/infrastructure/collection/parser.py:29-41 | every text with a paragraph has that packing |
| ChunkerText.ChunksWithoutParagraphs | src/mei/infrastructure/collection/parser.py:25-43 | a text of white space is its own chunk and the empty text has none |
| Simhash.Tally | src/mei/infrastructure/collection/dedup.py:37-41 | weight b is twice the hashes with bit b set minus the number of shingles |
| Simhash.ComputeFingerprint | src/mei/infrastructure/collection/dedup.py:24-48 | the two loops compute the printed bit majority, over all windows of four tokens |
| Simhash.FingerprintIsMajority | src/mei/infrastructure/collection/dedup.py:37-46 | bit b is set iff more than half of the shingle hashes set it, and the value fits in 64 bits |
| Simhash.FingerprintIgnoresOrder | src/mei/infrastructure/collection/dedup.py:37-46 | only the multiset of shingles matters |
| Simhash.SingleShingleIsItsHash | src/mei/infrastructure/collection/dedup.py:37-46 | one shingle's fingerprint is its own hash |
| Simhash.HexRoundTrip | src/mei/infrastructure/collection/dedup.py:48 | the printed digits have the given length and decode to the number |
| Simhash.FingerprintDecodes | src/mei/infrastructure/collection/dedup.py:24-48 | every fingerprint is 16 hex digits that decode to the 64-bit majority |
| Simhash.RunsOfJoined | src/mei/infrastructure/collection/dedup.py:9-10 | tokenising space-joined tokens gives the same tokens |
| Simhash.NormalisedTextHasSameFingerprint | src/mei/infrastructure/collection/dedup.py:9-48 | fingerprinting the space-joined tokens gives the text's own fingerprint |
| Simhash.TextsWithoutTokensCollide | src/mei/infrastructure/collection/dedup.py:34-35 | every text without a token gets the all-zero fingerprint |
| SimhashText.TokensBreak | src/mei/infrastructure/collection/dedup.py:4-12 | any character other than a-z and 0-9 is a break: the tokens before it are followed by those after it |
| SimhashText.StretchIsOneToken | src/mei/infrastructure/collection/dedup.py:4-12 | a stretch of token characters is one token |
| SimhashText.OneCharacter | src/mei/infrastructure/collection/dedup.py:4 | the token characters are the lower-case ASCII letters and the digits |
| SimhashText.OnlyTokensMatter | src/mei/infrastructure/collection/dedup.py:11-12 | texts whose lower-cased forms have the same tokens have the same fingerprint |
| SimhashText.ShinglesAreWindows | src/mei/infrastructure/collection/dedup.py:15-18 | from four tokens on there is one shingle for every four in a row, spaces between, and it reads back as these |
| SimhashText.FewTokensMakeOneShingle | src/mei/infrastructure/collection/dedup.py:15-17 | one to three tokens make one shingle of all of them, none make none |
| SimhashText.ShinglesDetermineTokens | src/mei/infrastructure/collection/dedup.py:15-18 | different token lists have different shingle lists |
| SimhashText.FingerprintIsWindowMajority | src/mei/infrastructure/collection/dedup.py:24-48 | bit b of the printed value is set exactly when more than half of all four-token windows hash to it |
| SimhashText.ShortFingerprintIsTheHash | src/mei/infrastructure/collection/dedup.py:24-48 | with one to three tokens the printed value is the hash of them all |
| Ingestion.DocumentRepository.FindByCanonicalUrl | src/mei/infrastructure/repositories/documents.py:41-47 | a row with that source and URL, none iff no row has both |
| Ingestion.DocumentRepository.FindByContentHash | src/mei/infrastructure/repositories/documents.py:58-66 | the lowest row with the hash other than the excluded one, if one is excluded; none iff there is no such row |
| Ingestion.DocumentRepository.FindByFingerprint | src/mei/infrastructure/repositories/documents.py:68-76 | the lowest row with the fingerprint under the same exclusion; none iff there is no such row |
| Ingestion.DocumentRepository.MarkDuplicate | src/mei/infrastructure/repositories/documents.py:78-80 | sets one pointer and changes nothing else |
| Ingestion.DocumentRepository.MarkFetched | src/mei/infrastructure/repositories/documents.py:103-115 | sets hash and status of one row only |
| Ingestion.DocumentRepository.MarkParsed | src/mei/infrastructure/repositories/documents.py:117-130 | sets text, fingerprint and status of one row only |
| Ingestion.DocumentRepository.AddChunk | src/mei/infrastructure/repositories/documents.py:147-155 | appends one chunk to one row |
| Ingestion.SourceIngestionService.SubmitUrl | src/mei/application/services/source_ingestion.py:55-87 | returns a row of the resolved source and that URL, an existing one whenever there is one, otherwise a new one taken through the stages; a raised stage leaves it failed and is reported |
| Ingestion.SourceIngestionService.FetchArchiveParse | src/mei/application/services/source_ingestion.py:107-180 | hash duplicate, no text, fingerprint duplicate or chunks, with earlier rows untouched, whatever stage raises: the row that `IngestionRows.FaultlessRow` and `IngestionRows.FaultFailsIff` describe |
| Ingestion.SourceIngestionService.StoreChunks | src/mei/application/services/source_ingestion.py:174-180 | stores the chunks of the text in order, or the prefix before a failing insert |
| IngestionProofs.SubmissionKeepsStore | src/mei/application/services/source_ingestion.py:55-180 | every submission keeps each row pointing at the first earlier match, and only appends |
| IngestionProofs.DuplicatesFormAForest | src/mei/application/services/source_ingestion.py:107-180 | over every run pointers go to earlier equal-key rows, two hops reach a non-duplicate, only non-duplicates own chunks, and a parsed non-duplicate owns exactly the chunks of its text |
| IngestionProofs.RootOwnsTextIff | src/mei/application/services/source_ingestion.py:145-180 | a parsed document's root has its fingerprint and is no duplicate, and owns exactly the chunks of its own text iff it did not fail |
| IngestionProofs.OnlyFirstCopyIsParsed | src/mei/application/services/source_ingestion.py:130-143 | of all rows with one hash only the first is ever fingerprinted or chunked, even if it failed |
| IngestionProofs.FailedOriginalHidesText | src/mei/application/services/source_ingestion.py:130-148 | the failing case: after a submission that fails at extraction, a faultless one of the same bytes is a duplicate of the failed row and no row has chunks |
| IngestionProofs.ChainIsShort | src/mei/infrastructure/repositories/documents.py:58-80 | following the pointer twice always ends at a row that is no duplicate |
| IngestionProofs.CopiesMeetAtOneRoot | src/mei/application/services/source_ingestion.py:124-172 | completed documents with equal hash or equal fingerprint share a root |
| IngestionProofs.EqualFingerprintMeets | src/mei/infrastructure/repositories/documents.py:68-80 | two parsed documents with one fingerprint share a root |
| IngestionProofs.EqualHashMeets | src/mei/infrastructure/repositories/documents.py:58-80 | two completed documents with one hash share a root |
| IngestionProofs.SameRootIffConnected | src/mei/application/services/source_ingestion.py:107-180 | without failures, two documents share a root iff a chain of equal hashes or fingerprints connects them |
| IngestionProofs.EqualTextsMeetAtOneRoot | src/mei/application/services/source_ingestion.py:150-172 | word-for-word republications under any source and URL share a root |
| IngestionProofs.ResubmissionChangesNothing | src/mei/application/services/source_ingestion.py:55-87 | a URL is ingested once per source, also after a failure |
| IngestionProofs.SubmissionIsIdleIff | src/mei/application/services/source_ingestion.py:67-79 | a submission leaves the store as it is iff it names a source that is unknown or already holds the URL |
| IngestionProofs.SubmissionWithoutSourceAdds | src/mei/application/services/pipeline_jobs.py:211-225 | a submission that names no source always adds a new source and a row of it, however often the URL was submitted |
| IngestionRows.FaultlessRow | src/mei/application/services/source_ingestion.py:107-180 | without a fault a fetched document is parsed with its text and fingerprint exactly when there is a text and its hash is new, is a duplicate exactly when hash or fingerprint was seen, and owns its chunks exactly when parsed and no duplicate |
| IngestionRows.FaultFailsIff | src/mei/application/services/source_ingestion.py:81-85 | a fault fails the row exactly when it strikes before the row is done, leaving the hash and what was parsed and stored by then; otherwise it changes nothing |
| IngestionRows.UnfetchedRow | src/mei/application/services/source_ingestion.py:81-108 | a page that cannot be fetched leaves a failed row without content |
| IngestionRows.FirstDocumentOwnsItsChunks | src/mei/application/services/source_ingestion.py:145-180 | after any run a faultless submission of a page with new hash and fingerprint is parsed with its text and owns exactly the chunks of it, and still does after every later run |
| IngestionRows.FirstSubmissionIsParsed | src/mei/application/services/source_ingestion.py:145-180 | the first submission of all, if it has a text, is parsed and owns the chunks of it at 4000 characters |
| Forecasts.ForecastRepository.Resolve | src/mei/infrastructure/repositories/forecasts.py:70-88 | sets status, outcome, time and score of one forecast and nothing else |
| Forecasts.ForecastAuditService.IssueForecast | src/mei/application/services/forecast_audit.py:41-59 | appends one open, unscored forecast |
| Forecasts.ForecastAuditService.ResolveForecast | src/mei/application/services/forecast_audit.py:64-88 | fails on an unknown id, otherwise resolves and scores exactly that forecast |
| Forecasts.BrierIsSquaredError | src/mei/application/services/forecast_audit.py:25-34 | the score is the squared distance to the outcome, none when ambiguous |
| Forecasts.RunsStayScored | src/mei/application/services/forecast_audit.py:41-88 | over every run a forecast has a score exactly when cleanly resolved, and it is the squared error |
| Forecasts.IssuedFieldsNeverChange | src/mei/application/services/forecast_audit.py:41-88 | whatever is resolved later, a forecast keeps the probability and dates it was issued with |
| CalibrationSamples.LastResolutionDecides | src/mei/application/services/forecast_audit.py:64-88 | over every run a forecast is open until first resolved, and then shows the outcome and time of its last resolution |
| Calibration.BucketForecasts | src/mei/application/services/calibration.py:46-96 | fails iff the count is below one, otherwise the two loops compute the buckets |
| Calibration.PlaceSamples | src/mei/application/services/calibration.py:62-66 | each sample is appended to the list of its bucket |
| Calibration.Accumulate | src/mei/application/services/calibration.py:83-95 | the sums of predictions, outcomes and scores of a group, and how many are scored |
| Calibration.CalibrationService.ComputeReliability | src/mei/application/services/calibration.py:111-146 | the report over the filtered resolved forecasts with a binary outcome |
| CalibrationProofs.BucketsPartition | src/mei/application/services/calibration.py:58-96 | every sample lies in exactly one bucket and nothing else does |
| CalibrationProofs.CountsAddUp | src/mei/application/services/calibration.py:62-96 | the bucket counts sum to the number of samples |
| CalibrationProofs.BucketsIgnoreOrder | src/mei/application/services/calibration.py:62-96 | the buckets do not depend on the order of the samples |
| CalibrationProofs.MeanPredictionInBucket | src/mei/application/services/calibration.py:63-96 | for probabilities in 0 to 100 a bucket's mean prediction lies within its bounds |
| CalibrationProofs.BucketBrierDominates | src/mei/application/services/calibration.py:83-95 | a non-empty bucket's mean Brier score is at least the square of its calibration gap |
| CalibrationProofs.BrierSharesAddUp | src/mei/application/services/calibration.py:83-95 | the count-weighted bucket means recompose the sum of all scores |
| CalibrationProofs.ReportsAreCalibrated | src/mei/application/services/calibration.py:111-146 | over every run and date range the report recomposes its overall Brier score, which is at least the reliability term |
| CalibrationSamples.SamplesAreTheScored | src/mei/application/services/calibration.py:111-146 | any measure summed over the samples of a report is that measure summed over the forecasts of the store that are resolved yes or no and issued within the dates, both included |
| CalibrationSamples.ReportCounts | src/mei/application/services/calibration.py:111-146 | the report counts exactly the resolved and the open forecasts issued within the dates |
| CalibrationSamples.BucketsAreOfTheScored | src/mei/application/services/calibration.py:111-146 | count, mean prediction and observed frequency of a bucket are those of the scored forecasts whose probability falls into it |
| CalibrationSamples.IndexIs | src/mei/application/services/calibration.py:50-86 | a probability is in the bucket whose lower bound it reaches and whose upper one it does not, with the ends of the scale in the first and last bucket |
| CalibrationSamples.BucketsTileTheScale | src/mei/application/services/calibration.py:50-86 | the buckets have one width and lie side by side from 0 to 1 |
| CalibrationRefinement.IndexHalves | src/mei/application/services/calibration.py:63-66 | halving a sample's fine bucket index gives its coarse one |
| CalibrationRefinement.CoarseBucketIsMerge | src/mei/application/services/calibration.py:58-96 | bucketing with b equals bucketing with 2b and merging neighbours, mean Brier scores weighing with the numbers of scored samples |
| CalibrationRefinement.CoarseBucketFromPublished | src/mei/application/services/calibration.py:58-96 | for scored samples the published numbers of the two neighbours alone give the merged bucket |
| CalibrationRefinement.CoarseReliabilityIsSmaller | src/mei/application/services/calibration.py:58-96 | the coarse reliability term never exceeds the fine one |
| RiskScoring.AggregateContributions | src/mei/application/services/risk_engine.py:69-101 | the filter and the accumulating loop compute base score, confidence and available weight |
| RiskScoring.RoundIsNearest | src/mei/application/services/risk_engine.py:97 | rounding moves a number by at most a half, and by exactly a half only to an even integer |
| RiskScoring.RoundIsUnique | src/mei/application/services/risk_engine.py:97 | those two facts determine the rounded integer |
| RiskScoring.BaseScoreIsRoundedAverage | src/mei/application/services/risk_engine.py:83-97 | the average lies between the least and greatest contribution, so the clamp never acts |
| RiskScoring.ConfidenceIsCoverage | src/mei/application/services/risk_engine.py:98-100 | confidence is the included weight times confidence over the whole weight, within 0 and 1 |
| RiskScoring.AggregateIgnoresOrder | src/mei/application/services/risk_engine.py:69-101 | the result is the same for every order of the indicators |
| RiskScoring.AggregateIgnoresScale | src/mei/application/services/risk_engine.py:69-101 | multiplying all weights by a positive factor changes neither score nor confidence |
| RiskScoring.BaseScoreIsMonotone | src/mei/application/services/risk_engine.py:86-97 | raising contributions never lowers the score |
| RiskScoring.FlippingReflectsTheScore | src/mei/application/services/risk_engine.py:86-97 | reading every direction the other way turns s into exactly 100 - s iff some weight is available |
| RiskEngine.LatestObservation | src/mei/infrastructure/repositories/indicators.py:95-112 | whichever equally new row the database picks, a matching reading not after as_of that none is newer than, none iff there is none |
| RiskEngine.LatestAssessment | src/mei/infrastructure/repositories/risks.py:91-108 | whichever the database picks, an assessment of the same risk and scope that none is newer than, none iff there is none |
| RiskEngine.RiskEngine.RecordObservation | src/mei/application/services/indicators.py:48-81 | appends one normalised, clamped reading, or fails and changes nothing |
| RiskEngine.RiskEngine.Calculate | src/mei/application/services/risk_engine.py:109-292 | one assessment from the history as of its time, appended only when persisting |
| RiskEngine.RiskEngine.BuildContributions | src/mei/application/services/risk_engine.py:133-186 | the loop over the weight rows, skipping orphaned ones, and the whole weight |
| RiskEngine.RiskEngine.Examine | src/mei/application/services/risk_engine.py:142-186 | stale and missing readings are reported but not included, inverse ones are reversed: the entry that `RiskBreakdown.BreakdownIsOfTheWeights` describes |
| RiskEngine.MultiModelReviewService.ReviewRiskAssessment | src/mei/application/services/multi_model_review.py:59-100 | re-scores as of the primary's own time, writes only the review, and leaves the engine's store unchanged |
| RiskProofs.MinMaxIsLinear | src/mei/application/services/indicators.py:33-39 | normalisation sends the bounds to 0 and 1, is linear between them, and never reverses an order |
| RiskProofs.StaleAfterItsAge | src/mei/application/services/risk_engine.py:62-66 | a reading is stale exactly when more than its allowed hours have passed, and never without a limit |
| RiskReview.AssessmentIsClamped | src/mei/application/services/risk_engine.py:343-391 | no model or a failed one leaves the base score, a recommendation in range is applied as it is and one out of range as the nearest bound |
| RiskProofs.FlippedWeightsReflectTheScore | src/mei/application/services/risk_engine.py:160-192 | swapping positive and inverse on every weight of any sound store turns base score s into 100 - s iff some weight is available |
| RiskHistory.AssessmentSeesOnlyThePast | src/mei/application/services/risk_engine.py:132-192 | for a fixed as_of, feasibility, base score, confidence and breakdown depend only on the readings up to it, and on the database's pick only where equally new readings differ |
| RiskHistory.ReproducibleIffTiesAgree | src/mei/infrastructure/repositories/indicators.py:95-112 | the breakdown is the same for every pick of the database iff equally new readings of each weighted indicator carry the same values |
| RiskTies.TieDecidesTheScore | src/mei/infrastructure/repositories/indicators.py:109-112 | two readings of one moment on which the pick alone decides between a score of 0 and of 100 |
| RiskHistory.RunsKeepThePast | src/mei/infrastructure/repositories/indicators.py:67-112 | a run that backdates nothing keeps the past of every earlier time and only appends |
| RiskReview.SecondOpinionIsWithinTwenty | src/mei/application/services/multi_model_review.py:59-83 | whatever happened in between, with equal picks or no differing ties the shadow score shares base and breakdown and differs by at most 20, and by 20 iff the clamped adjustments are 20 apart and the base is between 10 and 90 |
| RiskReview.WideToleranceAlwaysAgrees | src/mei/application/services/multi_model_review.py:47-83 | a tolerance of 20 or more never reports disagreement |
| RiskProofs.RunsAreSound | src/mei/application/services/risk_engine.py:109-292 | with non-negative weights, over every run readings stay on the 0-1 scale and every stored assessment is the rounded average of its breakdown moved by at most its clamped adjustment |
| RiskBreakdown.BreakdownIsOfTheWeights | src/mei/application/services/risk_engine.py:136-182 | an assessment has one entry per weight row of the risk whose indicator exists; the picked reading is included exactly when at most its allowed hours old, and then adds its normalised value or one minus it |
| RiskBreakdown.ReadingIsTheNewest | src/mei/application/services/risk_engine.py:142-151 | the picked reading is of the indicator and scope, not after the assessment, and none such is newer; none is picked exactly when there is none |
| RiskBreakdown.RowsOfAreTheRisks | src/mei/application/services/risk_engine.py:128 | the weight rows used are exactly those of the risk |
| RiskBreakdown.AssessmentFailsIff | src/mei/application/services/risk_engine.py:120-132 | an assessment fails exactly for an unknown risk, a scope it does not apply to or no weights, in this order, and is otherwise of the time asked for |
| RiskBreakdown.TrendFollowsTheLast | src/mei/application/services/risk_engine.py:188-223 | the previous score is that of a newest stored assessment of the same risk and scope, and the trend is its change beyond two points |
| RiskBreakdown.ExcludedEntriesDoNotCount | src/mei/application/services/risk_engine.py:82-83 | an entry that is not included changes nothing, wherever it stands |
| RiskBreakdown.TwoEntries | src/mei/application/services/risk_engine.py:82-101 | two included entries give the rounded weighted average and the confidences over the whole weight |
| RiskBreakdown.RecordedReading | src/mei/application/services/indicators.py:48-81 | a reading is stored as it came with its normalised value and its confidence cut to the scale, or fails on an unknown indicator or unusable bounds |
| RiskBreakdown.OtherNormalisations | src/mei/application/services/indicators.py:13-42 | a yes-or-no reading counts as 1 unless it is zero, a manual one is cut to the scale |
| Disagreement.AnalystAssessmentRepository.UpsertPosition | src/mei/infrastructure/repositories/analyst_assessments.py:19-65 | revises the analyst's row or appends one, and returns the row holding the new position |
| Disagreement.GroupedFormRefinesSimpleForm | src/mei/infrastructure/repositories/analyst_assessments.py:96-117 | for every table and threshold the query lists a subject iff the plain function calls it a disagreement, or the threshold is at most zero and its only score stands alone |
| Disagreement.FormsAgreeIff | src/mei/application/services/analyst_disagreement.py:24-42 | query and function agree on a whole table iff the threshold is positive or no score stands alone |
| DisagreementPairs.ClassifiedIff | src/mei/application/services/analyst_disagreement.py:24-42 | the plain function finds disagreement exactly when two different rows of the subject have different stances or scores at least the threshold apart |
| DisagreementPairs.ListedIff | src/mei/infrastructure/repositories/analyst_assessments.py:81-120 | and so does the query at any positive threshold |
| DisagreementPairs.SummaryCounts | src/mei/infrastructure/repositories/analyst_assessments.py:81-120 | each listed line is of the kind asked for and counts all rows on its subject |
| DisagreementPairs.SpreadIs | src/mei/infrastructure/repositories/analyst_assessments.py:81-120 | the spread is the largest difference between two scores, null when there is none |
| Disagreement.ZeroThresholdListsSingleScore | src/mei/infrastructure/repositories/analyst_assessments.py:96-117 | one score at threshold zero is listed by the query and refused by the function |
| Disagreement.UpsertTouchesOneRow | src/mei/infrastructure/repositories/analyst_assessments.py:38-65 | an upsert changes or adds one row and leaves every other as it was |
| Disagreement.UpsertIsUpdate | src/mei/infrastructure/repositories/analyst_assessments.py:38-65 | nobody else's position moves |
| Disagreement.TableShowsLastPositions | src/mei/infrastructure/repositories/analyst_assessments.py:19-65 | over every run of upserts and user deletions the table shows each known analyst's last position on each subject |
| Disagreement.UpsertsKeepOneRowPerSlot | src/mei/infrastructure/repositories/analyst_assessments.py:19-65 | upserts alone keep one row per subject and analyst, the null analyst included |
| Disagreement.AnalystsStayUnique | src/mei/domain/analyst_assessments/models.py:24-38 | with users deleted too, a known analyst has at most one row per subject |
| Disagreement.DeletionKeepsSlotsIff | src/mei/domain/analyst_assessments/models.py:24-38 | deleting a user keeps null rows unique iff the user shares no subject with a row that has no analyst |
| Disagreement.TwoDeletionsShareASlot | src/mei/domain/analyst_assessments/models.py:24-38 | the failing case: after two analysts of one subject are deleted its two rows share the null slot |
| Alerts.MonitorStore.EvaluateMonitors | apps/worker/tasks/dispatch_notifications.py:48-138 | one pass evaluates the first page of the enabled monitors by name, in order |
| Alerts.MonitorStore.EvaluateMonitor | apps/worker/tasks/dispatch_notifications.py:65-136 | notify and stamp on a trigger, stamp only otherwise, nothing at all when something raises |
| Alerts.MonitorStore.CheckCondition | apps/worker/tasks/dispatch_notifications.py:66-115 | both monitor types, their defaults and their parse failures decide as the rule says |
| Alerts.OperatorsFitTogether | apps/worker/tasks/dispatch_notifications.py:18-40 | the five operators relate as orders do; other operators and non-numbers never violate |
| Alerts.LatestReading | apps/worker/tasks/dispatch_notifications.py:74-105 | whichever equally new row the database picks, a reading of the subject not after now that none is newer than, none iff there is none |
| Alerts.PassTreatsMonitorsApart | apps/worker/tasks/dispatch_notifications.py:57-138 | what a pass does to a monitor depends on that monitor alone |
| Alerts.AlertsIncreaseOverRuns | apps/worker/tasks/dispatch_notifications.py:57-138 | over every run of readings, edits and passes a monitor's alerted readings have increasing times and last_triggered_at is the newest |
| Alerts.NoReadingAlertsTwice | apps/worker/tasks/dispatch_notifications.py:82-129 | a later notification of a monitor is about a strictly newer reading |
| Alerts.NextPassAlertsIffDue | apps/worker/tasks/dispatch_notifications.py:57-138 | a listed monitor without an error gets exactly one notification, quoting the reading the query returns, iff that reading violates and is newer than every earlier alert; otherwise none |
| Alerts.FailedMonitorIsUntouched | apps/worker/tasks/dispatch_notifications.py:129-136 | a monitor not stamped by the pass is untouched and met an error or a malformed id |
| AlertRules.RelationshipMonitorIsDueIff | apps/worker/tasks/dispatch_notifications.py:66-90 | a relationship monitor is due exactly when its observation has the field, by default the escalation risk score, with a value that meets the target, by default at least it, and is newer than all it alerted on |
| AlertRules.CountryMonitorIsDueIff | apps/worker/tasks/dispatch_notifications.py:91-115 | a country monitor is due exactly when the final score of the assessment of that risk and country does |
| AlertRules.UnusableConditionsAreNeverDue | apps/worker/tasks/dispatch_notifications.py:66-115 | a condition without a reference or target, of another type, or with a reference that is no id is never due |
| AlertRules.RaisesIffFails | apps/worker/tasks/dispatch_notifications.py:65-136 | evaluation fails exactly at a malformed reference, at a failing look-up it makes, or at a failing notification it owes, and notifies exactly when due and not failing |
| AlertRules.ListedMonitorInPass | apps/worker/tasks/dispatch_notifications.py:57-138 | a listed monitor that fails is left as it was; any other is stamped with the time of the pass and alerts exactly when due |
| Alerts.EveryMonitorIsListedIff | src/mei/infrastructure/repositories/monitors.py:18-30 | a pass reaches every enabled monitor iff at most 50 are enabled |
| Alerts.MonitorIsListedIff | src/mei/infrastructure/repositories/monitors.py:18-30 | a disabled monitor is never listed; an enabled one is when fewer than 50 others sort no later, is not when 50 sort before it, and with a name of its own exactly when fewer than 50 sort before it |
| Alerts.AlwaysListedIff | src/mei/infrastructure/repositories/monitors.py:18-30 | an enabled monitor is on the page under every order of the query iff fewer than 50 other enabled ones sort no later, shared names included |
| Alerts.SometimesListedIff | src/mei/infrastructure/repositories/monitors.py:18-30 | an enabled monitor is on the page under some order of the query iff fewer than 50 enabled ones sort before it |
| Alerts.BehindFiftyNeverAlerts | src/mei/infrastructure/repositories/monitors.py:18-30 | over any run in which every pass finds 50 enabled monitors ahead of it a monitor is never evaluated and never alerts |
| Alerts.FiftyFirstMonitorIsSkipped | src/mei/infrastructure/repositories/monitors.py:18-30 | a reachable store of 51 due monitors on which a pass without errors alerts on 50 and not on the last by name |
| EntityResolution.EntityResolutionService.Rank | src/mei/application/services/entity_resolution.py:36-53 | scoring the pool one by one and sorting gives the ranking |
| EntityResolution.EntityResolutionService.ResolveConfident | src/mei/application/services/entity_resolution.py:87-105 | the confident answer, with no side effect |
| EntityResolution.EntityResolutionService.Resolve | src/mei/application/services/entity_resolution.py:107-149 | the same answer as resolve_confident on every state, and exactly one review item when there is none |
| EntityResolution.RankingIsTheStableOrder | src/mei/application/services/entity_resolution.py:52 | a list is the ranking iff its scores fall and equal scores keep their order |
| EntityResolution.AutoResolvableIffClearWinner | src/mei/application/services/entity_resolution.py:56-62 | the top-two test succeeds iff some candidate reaches the threshold and beats all others by 5, and that one is on top |
| EntityResolution.ResolutionIgnoresOrder | src/mei/application/services/entity_resolution.py:36-62 | decision and winner are the same for every order of the pool |
| EntityResolution.SurfacedAreTheBest | src/mei/application/services/entity_resolution.py:128-129 | at most five are surfaced, all at or above the threshold, and an omitted one outscores none of them |
| EntityResolution.ConfidentAnswerIsJustified | src/mei/application/services/entity_resolution.py:87-105 | a confident answer matched exactly or leads every other actor by 5 |
| EntityResolution.ConfidentIff | src/mei/application/services/entity_resolution.py:87-105 | a name has a confident answer iff some actor matches it exactly or reaches the threshold and leads all others by 5 |
| EntityAnswers.AnswerIs | src/mei/application/services/entity_resolution.py:36-105 | the answer to a name is the first actor of that canonical name, else the first with that alias, else the actor one of whose names reaches the threshold and scores 5 more than every name of every other actor, else none |
| EntityAnswers.SurfacedShowScores | src/mei/application/services/entity_resolution.py:128-148 | a surfaced entry shows the number and name of an actor and the score of its best name |
| EntityAnswers.UpToFiveAreShown | src/mei/application/services/entity_resolution.py:128-129 | an actor whose name reaches the review threshold is shown unless five others are that score at least as much |
| Extraction.ExtractionService.Persist | src/mei/application/services/extraction.py:95-104 | events first, then claims against the title map |
| Extraction.ExtractionService.PersistEvent | src/mei/application/services/extraction.py:137-216 | resolve, look for candidates, reuse or create, then link |
| Extraction.ExtractionService.FindCandidates | src/mei/infrastructure/repositories/events.py:127-158 | the ids of active events of the type, inside the window, sharing an actor |
| Extraction.CandidatesBelow | src/mei/infrastructure/repositories/events.py:127-158 | contains an event iff it matches, each once and in order |
| Extraction.ExtractionService.LinkActor | src/mei/application/services/extraction.py:197-214 | links a resolved mention unless the key exists, and keeps the set of keys equal to the stored links |
| Extraction.ExtractionService.PersistClaim | src/mei/application/services/extraction.py:218-259 | one claim, its resolved claimant and subject, and one evidence row |
| ExtractionProofs.ClaimIsFiled | src/mei/application/services/extraction.py:218-259 | a claim holds its text, the event its reference names and the actors its names resolve to, with one evidence row; nothing else changes |
| ExtractionProofs.MentionsAreAccountedFor | src/mei/application/services/extraction.py:95-259 | persisting a document makes exactly the mentions of its events and claims, in order, each with the event role or claim it was extracted for and the answer its name has; the entity reviews grow by exactly one item for each unresolved one; every resolved one is attached to its own target |
| ExtractionProofs.EventActorIsSettled | src/mei/application/services/extraction.py:197-214 | each actor of each extracted event is linked in its role to the event that one was filed under, or has at its own place in the queue the review item for exactly that event and role |
| ExtractionProofs.ClaimNameIsSettled | src/mei/application/services/extraction.py:237-251 | each given claimant and subject of each claim is set on that claim, or has at its own place in the queue the review item for exactly that claim |
| ExtractionProofs.OneItemPerMention | src/mei/application/services/entity_resolution.py:128-149 | every review item owed belongs to exactly one unresolved mention |
| ExtractionProofs.EveryRunIsAccountedFor | src/mei/application/services/extraction.py:95-259 | over every run the mentions are exactly those its documents make, the entity reviews exactly those the unresolved ones are owed, each resolved one is still attached to its own target, nothing else is attached, no link repeats, and each claim has its evidence |
| ExtractionProofs.ClusteringIsAdvisory | src/mei/application/services/extraction.py:151-195 | a new event is created iff there is not exactly one candidate, and a duplicate review lists all candidates iff there are two or more |
| ExtractionProofs.LastTitleWins | src/mei/application/services/extraction.py:97-101 | a claim's reference finds the event that the last extracted event with that title was filed under |
| ExtractionProofs.CandidatesAfterPersisting | src/mei/application/services/extraction.py:151-214 | after persisting, an event's candidates are those it had plus itself when it was created with a confident actor |
| ExtractionProofs.RepetitionIsReusedIff | src/mei/application/services/extraction.py:137-216 | persisting the same event again creates none iff an actor resolves with confidence and there was at most one candidate |
| ExtractionProofs.RepetitionAddsNoLink | src/mei/application/services/extraction.py:197-214 | and then it is the same event with the same links |
| ExtractionFiling.CandidateIff | src/mei/application/services/extraction.py:145-157 | a stored event is a candidate exactly when it is active, of the same kind, started within the window either way and linked to an actor one of the extracted names stands for |
| ExtractionFiling.ReusedIff | src/mei/application/services/extraction.py:159-170 | a stored event is reused exactly when it is the only candidate |
| ExtractionFiling.EveryEventIsFiled | src/mei/application/services/extraction.py:99-101 | every extracted event is filed under one of its kind that starts within the window of it |
| ExtractionFiling.EveryClaimIsFiled | src/mei/application/services/extraction.py:103-104 | every extracted claim is stored in order with its text, the event of the last extracted event with the title it refers to, the actors its non-empty names stand for, and its own evidence |
| Scheduler.SchedulerService.CheckSchedules | src/mei/application/services/scheduler.py:131-153 | one loop pass spawns a task for exactly the due schedules |
| Scheduler.SchedulerService.RunDueSchedule | src/mei/application/services/scheduler.py:161-167 | a spawned task claims an enabled schedule and drops a disabled or deleted one |
| Scheduler.SchedulerService.TriggerJobNow | src/mei/application/services/scheduler.py:54-62 | an unknown id is an error that changes nothing; a known one is claimed without looking at the status |
| Scheduler.SchedulerService.CompleteExecution | src/mei/application/services/scheduler.py:104-122 | closes the execution and sets the next run to completion plus interval, or writes nothing when the schedule was deleted meanwhile |
| Scheduler.SchedulerService.CreateSchedule | apps/api/routers/schedules.py:103-129 | a new schedule has never run and has no next run, and its id was not known before |
| Scheduler.SchedulerService.UpdateSchedule | apps/api/routers/schedules.py:161-180 | an unknown id is an error that changes nothing; given fields are set and the others stay |
| Scheduler.SchedulerService.DeleteSchedule | apps/api/routers/schedules.py:194-205 | an unknown id is an error that changes nothing; afterwards no look-up finds the schedule |
| Scheduler.DueTasksAreDue | src/mei/application/services/scheduler.py:138-153 | the tasks spawned by a pass are those of the due schedules, every one of them |
| Scheduler.ExecutionsEndOnce | src/mei/infrastructure/repositories/schedules.py:119-140 | over every run, manual triggers, edits and crashes included, a completed execution never changes again until it is deleted with its schedule |
| Scheduler.StepKeepsExclusive | src/mei/application/services/scheduler.py:77-169 | every prompt loop-started step keeps one active task per schedule, the running marks and the spacing of starts |
| Scheduler.AtMostOneRunning | src/mei/application/services/scheduler.py:77-169 | in every prompt loop-only run each schedule has at most one running execution |
| Scheduler.StartsWaitOutTheInterval | src/mei/application/services/scheduler.py:104-122 | each start is at or after every earlier completion of the schedule plus the interval that run had read, whatever is edited, created or deleted in between |
| Scheduler.UneditedIntervalsStay | src/mei/application/services/scheduler.py:104-106 | without edits that interval is the schedule's own, whatever is created or deleted, a day where it is missing or zero |
| Scheduler.OrphanNeverRunsAgain | src/mei/application/services/scheduler.py:142-153 | a schedule left marked running by a dead task is never run by the loop again |
| Scheduler.DeletedNeverRunsAgain | src/mei/application/services/scheduler.py:136-167 | over every run, manual triggers included, a deleted schedule starts no execution, and a job of it under way writes nothing more |
| Scheduler.CrashOrphans | src/mei/application/services/scheduler.py:77-92 | a task that dies during its job leaves its schedule in that state |
| Scheduler.SlowClaimRunsTwice | src/mei/application/services/scheduler.py:131-167 | a second loop pass before the first task has claimed runs the job twice at once |
| Scheduler.ManualTriggerRunsTwice | src/mei/application/services/scheduler.py:54-62 | two manual triggers run the job twice at once |
| SchedulerTimes.TickSpawnsIff | src/mei/application/services/scheduler.py:138-153 | a loop pass starts a task for a schedule exactly when it exists, is enabled, is not marked running and its next run is missing or has come |
| SchedulerTimes.TickSpawnsOnce | src/mei/application/services/scheduler.py:138-153 | and not two |
| SchedulerTimes.ClaimStartsIff | src/mei/application/services/scheduler.py:161-167 | a spawned task starts an execution exactly when its schedule still exists and is enabled |
| SchedulerTimes.StatusTellsTheJob | src/mei/application/services/scheduler.py:89-114 | over every run in which its schedule is not deleted an execution ends as a success exactly when its own job returned, and as a failure exactly when it raised |
| SchedulerTimes.RunsAgainIff | src/mei/application/services/scheduler.py:104-122 | after a job has ended the loop runs its schedule again exactly when it is still enabled and the interval has passed |
| SchedulerTimes.ClaimedInterval | src/mei/application/services/scheduler.py:105 | the interval is the schedule's, or 86400 seconds where that is missing or zero |
| SchedulerTimes.NewSchedulesRunAtOnce | src/mei/application/services/scheduler.py:138-153 | a new schedule runs at the next pass exactly when it is enabled |
| SchedulerExclusion.StepKeepsAloneIff | src/mei/application/services/scheduler.py:54-169 | a step keeps one task and one running execution per schedule iff it is careful: a loop pass that finds no spawned task due again, or a trigger of a schedule neither running nor spawned |
| SchedulerExclusion.RunStaysAloneIff | src/mei/application/services/scheduler.py:54-169 | a run keeps it in every state iff all its steps are careful |
| SchedulerExclusion.CarefulRunsExclude | src/mei/application/services/scheduler.py:54-169 | in every careful run, manual triggers included, each schedule has at most one running execution |
| SchedulerExclusion.ExclusionIff | src/mei/application/services/scheduler.py:54-169 | a step is careful iff no careful continuation ever runs a job twice at once |
| SchedulerExclusion.CarelessStepCanRunTwice | src/mei/application/services/scheduler.py:54-169 | after any other step a continuation of at most two steps runs one job twice at once |
| SchedulerExclusion.TriggerIsExclusiveIff | src/mei/application/services/scheduler.py:54-92 | a manual trigger leaves at most one running execution iff the schedule is not marked running |
| SchedulerExclusion.TickKeepsOneTaskIff | src/mei/application/services/scheduler.py:131-153 | a loop pass keeps one task per schedule iff no spawned task belongs to an enabled schedule that still exists |
| SchedulerExclusion.PromptRunsStayAlone | src/mei/application/services/scheduler.py:77-169 | every state a prompt loop-only run reaches is one these conditions speak about |
| Investigation.InvestigationService.constructor | src/mei/application/services/investigations.py:125-166 | a pending investigation with its three pending steps |
| Investigation.InvestigationService.ExecuteInvestigation | src/mei/application/services/investigations.py:168-265 | ends completed with every step completed and a report linked, or failed with nothing unfinished; a fresh failure leaves a completed prefix and the rest failed with the error |
| Investigation.InvestigationService.RunSteps | src/mei/application/services/investigations.py:185-220 | completes the steps before the fault, each with the output of its kind |
| Investigation.RepetitionKeepsPrefixIff | src/mei/application/services/investigations.py:185-262 | executing again keeps completed steps in front iff it does not break off at the start of a step whose successor was already completed |
| Investigation.RepetitionCanBreakPrefix | src/mei/application/services/investigations.py:185-262 | the failing case: a new investigation that fails at its report and then at its first step ends with a failed step before a completed one |
| Investigation.ExecutionOfStep | src/mei/application/services/investigations.py:185-262 | in any state a step the execution gets past is completed, an unfinished one or the one it broke off at fails with its error, and any other stays as it was |
| Investigation.FindingsAreShown | src/mei/application/services/investigations.py:185-245 | each completed step shows the findings of its kind, and the investigation its summary, confidence and report |
| Investigation.FailureKeepsTheRest | src/mei/application/services/investigations.py:246-262 | a failed execution shows its error, adds no report and keeps the rest |
| Investigation.OneReportPerCompletion | src/mei/application/services/investigations.py:168-265 | over any number of executions there is one report per completed one, and the last execution decides the status |

## Left out

- HTTP fetching, parsing of pages and feeds, storage, messaging and authentication: foreign calls; their results are inputs.
- Model prompts, rationale texts, explanations, report and alert texts: only the values decided on are modelled; a notification is represented by the reading its text quotes.
- Graph analytics: the algorithms live in a foreign library.
- Routers, audit rows, migrations, session handling and the front end: no algorithm beyond the services modelled here.
- PATCH endpoints that overwrite probability or status directly: they bypass the service operations the runs are made of.
- Floating-point error, NaN and infinities: reals are exact.
- Queries that ask for one row without any order (a null analyst's position, an exact alias): the first row in id order is taken.
- Pages of queries: only the page of monitors a pass evaluates is modelled. A monitor's name is its place in the database's collation.
- Disagreement.ListDisagreements: returns the set of listed subjects with their counts and spread, not their order by spread nor a page of them.
- Document reprocessing and concurrent submissions: runs are sequential, with ids in processing order.
- URL normalisation and source creation by host: the normalised URL and the source id are inputs; a submission without a source gets a new one.
- Ingestion faults: a failing submission keeps its failed row, as the background pipeline does; the request path that rolls the row back is the run without that submission.
- Retry classification and Retry-After parsing: whether an error can be retried and the hint it carries are inputs.
- Actor type hints in name resolution: extraction never passes one.
- Deletion of monitors and delivery of notifications.
- A schedule deletion that overlaps a claim between its own look-up and its write: creating, editing and deleting a schedule are one step each.
- Cron expressions, job bodies and loop start and stop: the scheduler reads only the interval; a job ends in success, failure or a crash.
- Start and completion times of investigation steps; the searches of an investigation, whose findings are inputs.
- `list_due`, `diff_changed_indicators`, `should_trigger_for_risk`, `extract_keywords`, `score_narrative_comparison`, trend labels: single-pass functions that would add only easy members.
