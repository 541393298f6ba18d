# Verified models of the retrieval backend

Dafny models of the parts of the backend where a wrong branch is easiest to miss, with proofs of what those parts are for. `dafny verify dfyconfig.toml` checks everything. Nothing here runs the backend.

What is modelled, and where:

* **Citations** (`CodeRanges`, `Decimal`, `Numerals`, `NumeralScan`, `Vocabulary`, `NumberWords`, `Claims`, `Seams`, `Evidence`, `Citations`; source `backend/src/llm/citations.rs`). From an answer text to its verified citations: the Markdown code spans in which a marker does not count, the numeral reader that gives one key to every way of writing a number, the English and French number words, the claim before a marker, its lexical support, when numbers join where two texts meet and when more evidence keeps support, and the loop that cites, refuses or skips each marker.
* **Resilience** (`Breaker`, `Metrics`, `Retry`, `Resilience`, `Conservation`; `backend/src/clients/circuit_breaker.rs`, `metrics.rs`, `retry.rs`, `resilience.rs`). The breaker, the counters, the retry loop around an operation, and all of them together as a system of concurrent executions that may be dropped at any await, one atomic increment at a time.
* **Rate limiting** (`RateLimiter`; `backend/src/clients/voyage_rate_limiter.rs`). The request window and the token window, each as steps of overlapping callers, and the waiting loop itself.
* **Token budget** (`Utf8`, `Budget`; `backend/src/llm/budget.rs`). Metering, truncation at character boundaries, history fitting and admission.
* **Order and round trips** (`Sorting`, `Batches`, `PromptSources`, `Transcript`; `backend/src/clients/voyage.rs`, `backend/src/core/providers.rs` with its counterpart `backend/src/services/rag/search/formatting.rs`, `backend/src/clients/youtube.rs`). Unordered batches put back in order, evidence written into a prompt and read out again, transcripts printed and their timestamps read back.
* **Compatibility** (`Signatures`, `Readings`, `Meanings`, `OpenApi`, `Silence`, `Documents`, `Clients`, `Compatibility`, `BlindSpots`, `Migrations`; `scripts/check-openapi-compat.py`, `backend/migration-core/src/validate.rs`). The type signatures and references of the contract check and what can be read back from a signature; contracts written down as documents and read back by the check; the values a schema accepts; the check itself, what its silence means to clients and servers that exchange messages with values, and documents it is silent about although clients break; the migration classifier along every legal upgrade.

How to read the modules: code that computes a value is a function with lemmas about it. Code that works in steps is a method or a class, proved against such a function. Time is a natural number of ticks given to each call. A run is a sequence of events or steps, and the main results hold for every run. `Wrappers`, `Numbers`, `Sequences` and `Text` hold small helpers.

Where the code and its comments, or a first expectation, disagree, the model follows the code and a lemma says so:

* The limiter forgets its window while the clock is within its first 60 seconds (`RateLimiter.EveryUnsafeReadingOverfills`), and its 32-bit token sum wraps for large estimates (`RateLimiter.EveryWrappingEstimateOverfills`). It checks tokens without reserving them, so calls that overlap can overfill the token window (`RateLimiter.OverlapOverfills`), by as much as `RateLimiter.EveryTokenWindowIsBounded` allows and no more; a use beyond what was asked for adds to that.
* The breaker's failure window is a tumbling one, not a sliding one (`Breaker.WindowDoesNotSlide`). Its double check re-reads only the state, so two threads can cut an outage short (`Breaker.StaleCheckHappens`).
* Every rate limit and every timeout also counts as a failed request, so failures can outnumber requests, exactly when these and the stream errors outnumber the successes (`Conservation.FailuresAreOverstated`); one request can leave any number of failures, and the error rate has no bound (`Conservation.OneRequestManyFailures`, `Conservation.ErrorRateHasNoBound`).
* Delays with jitter can shrink from one attempt to the next, at the cap and below it: for a multiplier of at least one, exactly when this backoff and a quarter of it reach beyond the first whole millisecond above the next backoff (`Retry.NeverShrinksExactly`).
* Appending to the evidence can take support away, because numbers of joined texts merge (`Evidence.MoreCanTakeAway`). It keeps every claim supported exactly when every number of the old evidence is still read, or the old evidence has no content word (`Evidence.SupportGrowsExactly`); and every number is still read when no numeral and no number in words goes on over the seam (`Evidence.SupportGrows`).
* A comment of the code-span scanner speaks of fences at the start of a line; three backticks open a block wherever they stand (`CodeRanges.FenceAnywhere`).
* A call on the limiter that finds itself past its deadline does not look for room, so it can time out with nothing granted or recorded (`RateLimiter.DeadlineDoesNotLook`).
* The French vocabulary has no plural "cents": "deux cents" is read as two (`NumberWords.FrenchRoundTrip`).
* A lone point or comma before three digits is a decimal sign, not a thousands separator (`Numerals.GroupingIsTransparent`); a decimal whose integer is grouped by its own decimal sign, with three digits behind the last, is a whole number (`Numerals.DecimalIsRead`).
* A window of `usize::MAX` admits every request (`Budget.AdmissionIsAllowance`).
* The timestamp reader's comment speaks of the latest end; it returns the latest start, and also reads stamps quoted inside a snippet's own text (`Transcript.RangeIsThatOfTheStarts`, `Transcript.QuotedStampCounts`).
* The contract check's comment says that new enumerated values in a response pass silently; they are reported (`Signatures.AddedValueIsSeen`), and so are those in a request, where they break no client (`BlindSpots.GrowthIsReported`): the check is stricter than clients need.
* The contract check is also silent about changes that break clients. In the names: an optional parameter that becomes required (`BlindSpots.OptionalBecomesRequired`), and a required name the old contract does not declare that gets a type or is dropped (`BlindSpots.UndeclaredRequestName`, `BlindSpots.UndeclaredResponseName`). In the values: an enumerated value with a comma in it is not told from two values (`BlindSpots.CommaPasses`), nor are two values that print alike (`BlindSpots.PrintedAlikePasses`), and whatever a signature does not read may change, such as the items of an array, nested properties and ranges (`BlindSpots.UnreadPasses`, `BlindSpots.ItemsPass`). It does not read path-level parameters, the types of parameters, or whether a request body is required.
* Apart from these its silence is sound: if the names are out of these blind spots, every compared property can be told from its signature, and what signatures leave out demands no more than before, then every request of an old client is accepted and every success response can be read, value by value (`Compatibility.CheckIsSound`). It is exact for what signatures say: with nothing repeated in a list, silence means that all this holds whatever the types, formats and references mean, and that properties both contracts declare accept the same values and none that was relied on is gone (`Compatibility.CheckIsExact`).
* Once both migration tracks exist, the legacy history is not looked at again (`Migrations.TracksHideLegacy`).

## Model

| member | source | states |
|---|---|---|
| CodeRanges.FindCodeRanges | backend/src/llm/citations.rs:665-721 | the scanning loop gives the ranges of the recursive scanner |
| CodeRanges.ScanFence | backend/src/llm/citations.rs:676-703 | the fenced branch stops at the end of the line with the first closing fence, or at the end of the text |
| CodeRanges.ScanInline | backend/src/llm/citations.rs:704-716 | the inline branch stops behind the next backtick, or at the end of the text |
| CodeRanges.SpanIsUnique | backend/src/llm/citations.rs:670-716 | at a backtick exactly one stretch of text meets the declarative definition of a code span, and it is the one the scanner takes |
| CodeRanges.SegmentsExactly | backend/src/llm/citations.rs:665-721 | a list of ranges cuts the text into code spans and backtick-free text if and only if it is the scanner's answer |
| CodeRanges.FenceAnywhere | backend/src/llm/citations.rs:674-703 | behind any text without backticks, three backticks open a fenced block, in the middle of a line as well |
| CodeRanges.RangesPartitionBackticks | backend/src/llm/citations.rs:665-721 | ranges are non-empty, in bounds, in order, disjoint and start at a backtick; each backtick lies in exactly one |
| CodeRanges.RangesAreBoundaries | backend/src/llm/citations.rs:665-721 | both ends of every range are UTF-8 character boundaries |
| Numerals.GroupsOfPrint | backend/src/llm/citations.rs:379-396 | splitting a run gives back the sign, digit groups and separators it was written with |
| Numerals.ReadingKeepsDigits | backend/src/llm/citations.rs:397-442 | whichever reading is chosen, it holds exactly the digits of the run, in order |
| Numerals.CanonicalizedSame | backend/src/llm/citations.rs:444-463 | stripping zeros and minus zero keeps the number |
| Numerals.CanonicalOnlyOnce | backend/src/llm/citations.rs:444-463 | one rational number has one canonical form |
| Numerals.KeyInjective | backend/src/llm/citations.rs:444-463 | different canonical forms have different keys |
| Numerals.KeysAgree | backend/src/llm/citations.rs:444-463 | two keys are equal if and only if they denote the same rational number |
| Numerals.KeyOfNumeral | backend/src/llm/citations.rs:379-442 | the key of a numeral is the canonical key of the number it is read as, or the literal text when it is not read as one |
| Numerals.NumeralKeysAgree | backend/src/llm/citations.rs:379-463 | two written numerals get the same key if and only if they are read as the same rational, or are the same unreadable text |
| Numerals.GroupingIsTransparent | backend/src/llm/citations.rs:397-442 | thousands groups get the ungrouped key if and only if the separator is no point or comma, or there are more than two groups, or the number is zero |
| Numerals.KeyByShape | backend/src/llm/citations.rs:379-442 | told from groups and separators alone: a numeral is a fraction, cut at its last separator, if and only if that is a point or comma and what is before it is one group, or is in thousands and the numeral is not all thousands with one separator; it is whole if and only if it is one group, or is in thousands and a point or comma that ends it is used throughout and more than once; any other keeps its text |
| Numerals.DecimalIsRead | backend/src/llm/citations.rs:397-442 | a decimal printed with its integer in groups of thousands gets the canonical key of that decimal, if and only if the integer has one group, or the decimal sign is not what groups it, or other than three digits follow it, or the number is zero |
| NumeralScan.NumericLiteralValues | backend/src/llm/citations.rs:334-377 | the character loop gives the keys of the runs of the text |
| NumeralScan.RunsAreRuns | backend/src/llm/citations.rs:334-377 | every run the loop builds is a sign at most, then digits separated by single separators |
| NumeralScan.NumeralIsOneRun | backend/src/llm/citations.rs:334-377 | a numeral anywhere in a text is collected whole, as one run, and leaves the rest of the text as it was |
| NumeralScan.NumeralAlone | backend/src/llm/citations.rs:334-377 | a numeral on its own has one value, its key |
| NumeralScan.LeadingPointIsRead | backend/src/llm/citations.rs:348-363 | a decimal that starts with its point, behind a sign or not, is read with a zero before the point |
| NumeralScan.KeyIsFixedPoint | backend/src/llm/citations.rs:334-463 | reading a canonical key gives that key back |
| Vocabulary.EnglishAllLex | backend/src/llm/citations.rs:528-589 | every English number word is in the vocabulary, with its value |
| Vocabulary.FrenchAllLex | backend/src/llm/citations.rs:528-589 | every French number word of the model is in the vocabulary with its value, except the plural "cents" |
| NumberWords.ParseTokens | backend/src/llm/citations.rs:472-526 | a parse takes at least one token, no more than there are, and stays within 128 bits |
| NumberWords.ParseWordNumber | backend/src/llm/citations.rs:472-526 | the parsing loop equals the recursive parser |
| NumberWords.EnglishRoundTrip | backend/src/llm/citations.rs:472-579 | every English cardinal below 10^15, with or without "and", is read back as its number and used up to its last word, whatever stops the parser there |
| NumberWords.FrenchReads | backend/src/llm/citations.rs:472-579 | what a French cardinal below a million is read as, and how many words are used |
| NumberWords.FrenchRoundTrip | backend/src/llm/citations.rs:472-579 | it is read back as its number if and only if it does not end in a plural hundred |
| NumberWords.UnitsAreCounted | backend/src/llm/citations.rs:490-512 | a number below one thousand and a unit (dozen, douzaine, score, hundred, cent, thousand, mille, million, billion, milliard, trillion) are read as that many units, a unit alone as one |
| Claims.CollectNumericValues | backend/src/llm/citations.rs:313-332 | the loop gives the numeral keys, then the values of the number words, which it skips as it uses them |
| Claims.SpelledEqualsWritten | backend/src/llm/citations.rs:313-332 | a number below 10^15 in English words, whatever stands between them, and the same number in digits have the same single value |
| Claims.ClaimIsLastSentence | backend/src/llm/citations.rs:283-304 | the claim starts where the longest end of the prefix without a sentence end starts, and only there |
| Claims.PrefixAtBoundary | backend/src/llm/citations.rs:242-244 | the prefix up to the byte offset of a character is the text before it |
| Claims.OnlyAtBoundaries | backend/src/llm/citations.rs:242-244 | there is text before an offset if and only if the offset is a character boundary |
| Claims.ClaimTextIs | backend/src/llm/citations.rs:245-251 | what a marker vouches for is the last sentence without a list mark, the colons and semicolons in front, and white space around any of them |
| Claims.SupportMeans | backend/src/llm/citations.rs:252-281 | support holds if and only if no number and no negation of the claim is missing from the evidence, and of its content words, of which there is one, at least two thirds are there |
| Claims.SelfSupport | backend/src/llm/citations.rs:246-281 | a text supports itself if and only if it has a content word |
| Seams.RunsStay | backend/src/llm/citations.rs:334-377 | behind any character that is no digit, the runs of the longer text begin with those of the shorter if and only if the old text does not end in a digit that a separator and a digit follow |
| Seams.OneValueEach | backend/src/llm/citations.rs:313-332 | the words of a text have exactly one value for each stretch of number words, whatever conjunctions stand in it and whatever overflows |
| Seams.WordsStay | backend/src/llm/citations.rs:313-332 | the values of two lists of words stay apart if and only if no number is open at the end of the first that the second goes on with |
| Evidence.SupportGrowsExactly | backend/src/llm/citations.rs:246-281 | appending behind a character that ends words keeps every claim supported if and only if the old evidence has no content word or all its numbers are still read |
| Evidence.SupportGrows | backend/src/llm/citations.rs:246-281 | evidence that joins no numeral and no number in words where it starts never takes support away |
| Evidence.MoreCanTakeAway | backend/src/llm/citations.rs:246-281 | for every content word, "word two" supports itself and "word two hundred" does not support it |
| Citations.TruncateTextFits | backend/src/llm/citations.rs:731-743 | the cut text keeps within the limit if and only if it was short enough or the limit leaves room for the dots |
| Citations.MarkersAreAllMatches | backend/src/llm/citations.rs:98-114 | the markers are all places where the pattern matches, in order |
| Citations.MarkersAreSpelled | backend/src/llm/citations.rs:98-135 | each marker stands in the text as a bracket, its decimal digits and a bracket |
| Citations.ExtractCitations | backend/src/llm/citations.rs:87-231 | the loop emits the citations of the first valid marker of each chunk, in order, and counts the refused markers |
| Citations.EveryMarkerCounts | backend/src/llm/citations.rs:98-231 | markers = citations + refusals + valid repeats |
| Citations.CitationsAreFirstMarkers | backend/src/llm/citations.rs:98-231 | each citation stands at the first marker that validly cites its chunk; chunks are distinct, offsets increase, and every validly cited chunk is cited |
| Citations.ValidExactly | backend/src/llm/citations.rs:107-206 | a marker of the text validly cites a chunk if and only if it is in no code span, its digits are ASCII and in the machine word the number of that chunk counted from one, the chunk has a generation, its position is its index, its text is not empty and as wide as its span, its pages are in order, and, where active generations are given, its generation is the active one and it supports the claim |
| Budget.TokenMeter.WriteStr | backend/src/llm/budget.rs:224-247 | one piece adds its bytes |
| Budget.TokenMeter.WriteAll | backend/src/llm/budget.rs:224-255 | metering pieces equals metering their concatenation |
| Budget.TruncateMessageContent | backend/src/llm/budget.rs:285-311 | the method gives the truncation |
| Budget.TruncationIsLongest | backend/src/llm/budget.rs:285-311 | what is cut keeps the longest whole-character prefix that leaves room for the marker |
| Budget.TruncationFits | backend/src/llm/budget.rs:285-311 | the result keeps within the limit if and only if the input did or the marker does; otherwise it has the marker's length |
| Utf8.EncodingIsShortest | backend/src/llm/budget.rs:299-306 | the bytes that are counted for a character stand for it, as section 3 of RFC 3629 has it, and no shorter ones can |
| Budget.FitHistory | backend/src/llm/budget.rs:319-352 | dropped and kept part the history in order, the token count is that of the kept, within the budget, and one message more would not be |
| Budget.FitIsLongest | backend/src/llm/budget.rs:319-352 | the newest `j` messages fit if and only if `j` is no more than were kept |
| Budget.FitIsMonotone | backend/src/llm/budget.rs:319-352 | a larger budget keeps at least as much, and the smaller answer is an end of the larger |
| Budget.FitIsIdempotent | backend/src/llm/budget.rs:319-352 | fitting what was fitted changes nothing and drops nothing |
| Budget.KeptMessages | backend/src/llm/budget.rs:319-352 | each kept message is that of the history, with its role, whole if it has no more than 2000 bytes, and never longer |
| Budget.HistoryPrice | backend/src/llm/budget.rs:224-257 | a history costs the bytes a meter counts over all its contents and eight for each message |
| Budget.RequestPrice | backend/src/llm/budget.rs:196-205 | a request costs the bytes of everything in it, eight for each message and sixteen for itself |
| Budget.AdmissionIsAllowance | backend/src/llm/budget.rs:114-205 | admitted if and only if the window covers the overhead and the content fits the prompt allowance, or the window is the largest machine word |
| Budget.ReserveIsIntact | backend/src/llm/budget.rs:114-205 | for every window whose five percent do not wrap, admitted if and only if both the fixed reserve and the five percent stay free |
| Budget.FittedHistoryIsAdmitted | backend/src/llm/budget.rs:114-352 | history fitted to what the committed content leaves is admitted, and no longer end of the history is |
| Budget.NothingElseIsAdmitted | backend/src/llm/budget.rs:114-205 | when the committed content does not fit, no history makes the request admissible |
| RateLimiter.CheckKeepsInvariant | backend/src/clients/voyage_rate_limiter.rs:72-80 | pruning and checking keeps: no window over the bound, and what left the queue is older than the last cutoff |
| RateLimiter.PushKeepsInvariant | backend/src/clients/voyage_rate_limiter.rs:92-97 | so does a push, which may come late and out of order |
| RateLimiter.EveryWindowIsBounded | backend/src/clients/voyage_rate_limiter.rs:56-109 | with at most `k` callers between their check and their push, every closed 60-second interval of every run holds at most `max_rpm + k - 1` grants, so `max_rpm` for serialised calls |
| RateLimiter.EveryUnsafeReadingOverfills | backend/src/clients/voyage_rate_limiter.rs:72-80 | at every instant in the first window of the clock the bound fails |
| RateLimiter.RefusedExactly | backend/src/clients/voyage_rate_limiter.rs:72-97 | in every serialised run with safe readings, a willing check is refused if and only if at least `max_rpm` grants of the whole history lie in the closed 60 seconds that end with it |
| RateLimiter.TokensRefusedExactly | backend/src/clients/voyage_rate_limiter.rs:82-90 | in every run of overlapping callers, a willing request for tokens is refused if and only if it does not fit, in 32 bits, with the tokens the whole history records in the closed 60 seconds that end with it |
| RateLimiter.DeadlineDoesNotLook | backend/src/clients/voyage_rate_limiter.rs:60-72 | a call past its deadline times out although nothing is granted or recorded |
| RateLimiter.AskKeepsInvariant | backend/src/clients/voyage_rate_limiter.rs:82-108 | a token check and its grant keep: every grant saw at most the limit in its window, and whatever older grant it did not see recorded was pending |
| RateLimiter.RecordKeepsInvariant | backend/src/clients/voyage_rate_limiter.rs:170-180 | so does a record, which may come in another order than the grants |
| RateLimiter.EveryTokenWindowIsBounded | backend/src/clients/voyage_rate_limiter.rs:82-180 | with at most `k` grants not yet recorded, none for more than `E` tokens, none using over `x` tokens more than it asked for, and no 32-bit wrap, every closed 60-second interval of every run holds at most `max_tpm + x + (k - 1) * (E + x)` tokens, so `max_tpm` for calls that do not overlap and keep to what they asked for |
| RateLimiter.OverlapOverfills | backend/src/clients/voyage_rate_limiter.rs:82-108 | two overlapping calls overfill `max_tpm` for every estimate that fits once and not twice, and reach the bound for two callers where the estimate is the limit, whatever they use beyond it |
| RateLimiter.EveryWrappingEstimateOverfills | backend/src/clients/voyage_rate_limiter.rs:82-90 | every estimate that can reach 2^32 with the limit breaks the bound even for one caller |
| RateLimiter.SleepMakesProgress | backend/src/clients/voyage_rate_limiter.rs:111-165 | the loop sleeps for a positive time, no longer than any blocking front entry counts, or one poll if it is about to leave; it wakes at the deadline, at a poll, or exactly when a blocking front entry stops counting |
| RateLimiter.VoyageRateLimiter.Acquire | backend/src/clients/voyage_rate_limiter.rs:56-167 | as long as every reading of the clock is safe, the call is granted at the first reading that is within the deadline and finds room in both windows of the whole history, times out at a reading past the deadline, and every reading before it ends was within the deadline and found one of the windows full; exactly one grant is pushed if it is granted, and the request bound holds |
| RateLimiter.VoyageRateLimiter.CheckRequests | backend/src/clients/voyage_rate_limiter.rs:72-80 | prunes what is older than the cutoff, and finds room if and only if fewer than `max_rpm` grants of the whole history lie in the window |
| RateLimiter.VoyageRateLimiter.CheckTokens | backend/src/clients/voyage_rate_limiter.rs:82-90 | prunes, sums in 32 bits, and finds room if and only if the request fits with what the whole history records in the window |
| RateLimiter.VoyageRateLimiter.Reserve | backend/src/clients/voyage_rate_limiter.rs:92-97 | takes the slot that the checks found free |
| RateLimiter.VoyageRateLimiter.RecordUsage | backend/src/clients/voyage_rate_limiter.rs:170-180 | appends the use and keeps the invariant |
| Breaker.CircuitBreaker.AllowRequest | backend/src/clients/circuit_breaker.rs:150-173 | thaws if the outage is over, refuses with the rest of the outage if it is not |
| Breaker.CircuitBreaker.RecordSuccess | backend/src/clients/circuit_breaker.rs:175-204 | new state after a success |
| Breaker.CircuitBreaker.RecordFailure | backend/src/clients/circuit_breaker.rs:206-261 | new state after a failure |
| Breaker.CircuitBreaker.HandleClosedFailure | backend/src/clients/circuit_breaker.rs:219-250 | the failure window of a closed breaker, as the step function has it |
| Breaker.WhyItOpened | backend/src/clients/circuit_breaker.rs:206-261 | every Closed-to-Open step ends exactly `failure_threshold` failures within `failure_window` of the first, with no success between them |
| Breaker.WhenItOpens | backend/src/clients/circuit_breaker.rs:206-261 | a closed breaker opens if and only if a failure brings the current window, told from the history alone, to the threshold |
| Breaker.WindowDoesNotSlide | backend/src/clients/circuit_breaker.rs:219-250 | a threshold's worth of failures within one window length can leave it closed |
| Breaker.OutageIsKept | backend/src/clients/circuit_breaker.rs:150-173 | every request within `open_duration` of the opening is refused, whatever is reported meanwhile, and elapsed plus announced wait is the outage |
| Breaker.OutageEnds | backend/src/clients/circuit_breaker.rs:150-173 | a request that meets a breaker open since a failure is refused if and only if it comes less than `open_duration` after that failure; otherwise it goes ahead and leaves the breaker half-open with no successes counted |
| Breaker.OtherwiseGo | backend/src/clients/circuit_breaker.rs:150-173 | a request that meets a closed or half-open breaker goes ahead and changes nothing |
| Breaker.WhatEndsProbing | backend/src/clients/circuit_breaker.rs:175-217 | a half-open breaker opens again at a failure, from that instant, closes at the success that brings those since it became half-open to `success_threshold`, and otherwise stays |
| Breaker.WhyItClosed | backend/src/clients/circuit_breaker.rs:175-204 | it closes only from half-open, after exactly `success_threshold` successes since it became half-open and no failure |
| Breaker.HalfOpenAfterOutage | backend/src/clients/circuit_breaker.rs:263-289 | it becomes half-open only at a request, at least `open_duration` after the failure that opened it, and was open all the while |
| Breaker.OpenedAtIffNotClosed | backend/src/clients/circuit_breaker.rs:194-289 | under every interleaving of the lock sections the opening time is absent if and only if the state is closed |
| Breaker.StaleCheckCutsOutage | backend/src/clients/circuit_breaker.rs:263-289 | a stale check ends an outage early if and only if the breaker was opened again since, at an instant less than `open_duration` before the check or after it |
| Breaker.StaleCheckHappens | backend/src/clients/circuit_breaker.rs:263-289 | such an interleaving exists |
| Metrics.ProviderMetrics.RecordRequest | backend/src/clients/metrics.rs:54-57 | counts one request and keeps every counter equal to the log |
| Metrics.ProviderMetrics.RecordSuccess | backend/src/clients/metrics.rs:59-69 | one success with its latency, all counters still equal to the log modulo 2^64 |
| Metrics.ProviderMetrics.RecordFailure | backend/src/clients/metrics.rs:71-83 | one failure with its latency |
| Metrics.ProviderMetrics.RecordRateLimit | backend/src/clients/metrics.rs:85-91 | one rate limit, which is also a failure |
| Metrics.ProviderMetrics.RecordTimeout | backend/src/clients/metrics.rs:93-99 | one timeout, which is also a failure |
| Metrics.ProviderMetrics.RecordDuration | backend/src/clients/metrics.rs:101-113 | sum, count, least and greatest of all latencies recorded |
| Metrics.ProviderMetrics.Reset | backend/src/clients/metrics.rs:188-199 | empties the log, and every counter with it |
| Metrics.GettersAreExact | backend/src/clients/metrics.rs:136-152 | average and least are the true ones, each if and only if nothing overflowed; the greatest always is; least and greatest are latencies of the log and bound the others |
| Metrics.LatenciesAreCounted | backend/src/clients/metrics.rs:59-113 | there is one latency for each success and each failure that is no rate limit or timeout |
| Metrics.ReportIsOrdered | backend/src/clients/metrics.rs:136-152 | min ≤ average ≤ max whenever the total did not overflow |
| Metrics.RequestTimer.Success | backend/src/clients/metrics.rs:300-304 | records one success and disarms the timer |
| Metrics.RequestTimer.Fail | backend/src/clients/metrics.rs:306-310 | records one failure and disarms the timer |
| Metrics.RequestTimer.Drop | backend/src/clients/metrics.rs:313-319 | records a failure if and only if nothing was recorded before |
| Retry.DelayIsCapped | backend/src/clients/retry.rs:81-97 | no delay exceeds the maximum by more than a quarter, and none does without jitter |
| Retry.BackoffIsGeometric | backend/src/clients/retry.rs:81-97 | the backoff starts with the initial delay and, for a multiplier of at least one, each is the one before times the multiplier, all cut at the maximum |
| Retry.DelaysGrow | backend/src/clients/retry.rs:81-97 | for a multiplier of at least one, delays never shrink without jitter, nor with jitter unless the later delay draws less |
| Retry.NeverShrinksExactly | backend/src/clients/retry.rs:81-97 | with jitter and a multiplier of at least one, no two draws make the next delay shorter if and only if 1.25 times this backoff is at most the first whole millisecond above the next backoff |
| Resilience.ResilientExecutor.Execute | backend/src/clients/resilience.rs:347-456 | a refused request leaves no trace in the metrics; an admitted one leaves the records and the one verdict of its course |
| Resilience.ResilientExecutor.RetryLoop | backend/src/clients/resilience.rs:373-456 | the retry loop takes the course the recursive definition gives |
| Resilience.ResilientExecutor.RecordStreamError | backend/src/clients/resilience.rs:333-336 | a stream error counts as a failure and is told to the breaker |
| Resilience.ExecutionContract | backend/src/clients/resilience.rs:373-456 | between one and `max_retries + 1` calls, and all of them if the last was rate limited or retryable; ends at the first final attempt, which alone decides the result and the only verdict; a failure is told if and only if it was no 429 |
| Resilience.SleepIsBounded | backend/src/clients/resilience.rs:396-450 | without announced delays the time slept is bounded by the capped backoff |
| Resilience.AnnouncedIsSlept | backend/src/clients/resilience.rs:402-427 | a rate limit that announces a delay is slept off exactly |
| Resilience.BackoffDoubles | backend/src/clients/resilience.rs:412-450 | without announced delays, with multiplier two, no jitter and no cap in reach, `n` waits take `initial_delay * (2^n - 1)` |
| Resilience.RecordsAreCounted | backend/src/clients/resilience.rs:386-410 | attempts leave one record for each 429 and, where a timeout is configured, one for each retryable error without a status that says it timed out, and no other |
| Resilience.FailuresAreHurtingCalls | backend/src/clients/resilience.rs:333-456 | the breaker hears of a failure once for each call that ended badly, and never otherwise |
| Resilience.OpeningTakesFailedCalls | backend/src/clients/resilience.rs:347-456 | the breaker leaves Closed only after `failure_threshold` such calls, so a run that ends in successes, 429s and cancellations keeps it closed |
| Conservation.InvariantHolds | backend/src/clients/resilience.rs:347-456 | every step of the concurrent system keeps the balance, the phases and one ending for each execution |
| Conservation.CountersAreConserved | backend/src/clients/metrics.rs:54-98 | between any two atomic increments of every interleaving with every cancellation: total = in flight + successful + (failed + halfway − rate limits − timeouts − stream errors), where halfway counts the executions between the two increments of a rate limit or a timeout; each execution says exactly once that it is over |
| Conservation.FailuresAreOverstated | backend/src/clients/metrics.rs:85-97 | at rest, failures exceed the requests that did not succeed by the rate limits, timeouts and stream errors, and outnumber all requests if and only if those outnumber the successes |
| Conservation.OneRequestManyFailures | backend/src/clients/resilience.rs:373-456 | whatever the configuration, one execution that is rate limited at every attempt leaves one request and `max_retries + 2` failures |
| Conservation.ErrorRateHasNoBound | backend/src/clients/metrics.rs:155-165 | for every bound some run has more failures than the bound times its requests |
| Batches.FlattenChunks | backend/src/clients/voyage.rs:257-263 | the batches hold the texts, in order |
| Batches.ChunksAreFull | backend/src/clients/voyage.rs:257-263 | every batch but the last is full, the last is not empty |
| Batches.InOrderRestores | backend/src/clients/voyage.rs:497-501 | sorting a response by index undoes any reordering |
| Batches.Reassemble | backend/src/clients/voyage.rs:304-312 | the first error in completion order, or the batches in the order of their numbers |
| Batches.AnswersKeepOrder | backend/src/clients/voyage.rs:240-319 | whatever the responses hold and in whatever order the batches finish, the answers come out in the order of the batches |
| Batches.EmbeddingsKeepOrder | backend/src/clients/voyage.rs:240-319 | where every response has one embedding for each text of its batch, that is the embedder mapped over the texts, for every batch size |
| Batches.EmbedDocuments | backend/src/clients/voyage.rs:240-319 | the same of the method, which succeeds if and only if every batch does; a failure is the one of the batch that failed first |
| PromptSources.EscapeInto | backend/src/services/rag/search/formatting.rs:186-207 | copying the runs between structural characters equals escaping character by character |
| PromptSources.UnescapeInvertsEscape | backend/src/core/providers.rs:430-436 | the five replacements, `&amp;` last, invert escaping for every string |
| PromptSources.ReadSourceTexts | backend/src/core/providers.rs:412-441 | the cursor loop gives the bodies of the recursive reader |
| PromptSources.EntryIsRead | backend/src/services/rag/search/formatting.rs:165-184 | one rendered entry is read as its trimmed passage, whatever its title, id, page and passage hold |
| PromptSources.TagIsRead | backend/src/services/rag/search/formatting.rs:169-181 | cut at its quotes, the tag of an entry gives back its rank, source and title, unescaped, and its page where there is one |
| PromptSources.RanksAreNumbered | backend/src/services/rag/search/formatting.rs:101-117 | the passage of rank `k` carries the number `k` |
| PromptSources.ContextIsRead | backend/src/services/rag/search/formatting.rs:101-117 | a rendered region is read as its trimmed passages in rank order |
| PromptSources.SourcesRoundTrip | backend/src/llm/prompts.rs:157-178 | the sources of an assembled prompt are the trimmed passages that went in, in order, then only elements that later blocks bring of their own |
| Transcript.FormatTranscript | backend/src/clients/youtube.rs:818-864 | the printing loop gives the Markdown of the specification |
| Transcript.SectionsCover | backend/src/clients/youtube.rs:837-853 | every snippet starts less than a minute after its section, and a new section a minute or more after the one before; where starts never decrease, none starts before its section |
| Transcript.SnippetIsPrinted | backend/src/clients/youtube.rs:837-880 | every snippet is printed, with its time and its trimmed text, behind a header where it opens a section, which shows its start and a minute later or the end of the last snippet |
| Transcript.TitleIsKept | backend/src/clients/youtube.rs:825-835 | without the backslashes that make its marks plain, the printed title is the title |
| Transcript.TimestampIsRead | backend/src/clients/youtube.rs:866-871 | a printed time reads back as its whole seconds |
| Transcript.StampIsRead | backend/src/clients/youtube.rs:908-916 | a line that starts with a printed time carries that time, whatever follows |
| Transcript.TitleHasNoStamps | backend/src/clients/youtube.rs:825-835 | no line of a title carries a stamp, whatever the title |
| Transcript.HeaderHasNoStamps | backend/src/clients/youtube.rs:841-853 | nor does a section header |
| Transcript.LinesKeepStamps | backend/src/clients/youtube.rs:889-891 | carriage returns and a last empty line do not matter to the stamps |
| Transcript.ExtractTimestampRange | backend/src/clients/youtube.rs:885-906 | the least and the greatest stamp of the text, absent if and only if there is none |
| Transcript.TranscriptStamps | backend/src/clients/youtube.rs:818-916 | the stamps of a printed transcript are the whole-second starts in order, each followed by what later lines of the snippet's own text quote |
| Transcript.RangeIsThatOfTheStarts | backend/src/clients/youtube.rs:818-916 | the range read is the least and the greatest whole-second start if and only if no later line of a snippet quotes a time outside it |
| Transcript.SingleLineQuotesNothing | backend/src/clients/youtube.rs:855-860 | single-line text quotes nothing |
| Transcript.QuotedStampCounts | backend/src/clients/youtube.rs:885-906 | a snippet whose second line looks like a stamp moves the range |
| Signatures.ReferencesAreTransparent | scripts/check-openapi-compat.py:57-67 | a reference means what its schema means, also on a cycle; the guard only ends the search |
| Signatures.ResolvedIsFinal | scripts/check-openapi-compat.py:57-67 | what is resolved no longer refers to a schema |
| Signatures.ReferenceNames | scripts/check-openapi-compat.py:53-67 | a reference to `#/components/schemas/` and a name is read as the schema of that name in the components, as nothing if there is none, and a node without a reference as itself |
| Signatures.CycleIsEmpty | scripts/check-openapi-compat.py:57-67 | a cycle of references is read as nothing |
| Signatures.OrderInsensitive | scripts/check-openapi-compat.py:70-84 | the order of listed types or enumerated values does not change the signature |
| Signatures.AddedValueIsSeen | scripts/check-openapi-compat.py:70-84 | one more enumerated value changes it, if and only if it prints as something or is not the only one |
| Signatures.ListsAreCompared | scripts/check-openapi-compat.py:74-81 | sorted and joined lists without the separator in a value are equal if and only if their values are, up to order (or one is empty and the other prints as nothing) |
| Readings.SignatureIsRead | scripts/check-openapi-compat.py:70-84 | where nothing prints with a separator in it, two schemas have equal signatures if and only if they have the same types, format, enumerated values and reference as printed, up to order |
| Meanings.MeaningIsRead | scripts/check-openapi-compat.py:70-84 | where no list repeats itself either, the same is read of two schemas if and only if they accept the same values whatever the types, formats and references mean |
| Meanings.AcceptsAll | scripts/check-openapi-compat.py:70-84 | a schema accepts every value whatever these mean if and only if nothing is read of it |
| OpenApi.CompareProperties | scripts/check-openapi-compat.py:141-154 | the loop over the old properties adds exactly the removed and the changed ones |
| OpenApi.CompareRequired | scripts/check-openapi-compat.py:156-169 | the second half adds exactly the names that became required, or are no longer guaranteed |
| OpenApi.CompareObject | scripts/check-openapi-compat.py:124-169 | adds exactly the findings of the comparison |
| OpenApi.CheckOperation | scripts/check-openapi-compat.py:176-220 | adds exactly the findings about one operation |
| OpenApi.Check | scripts/check-openapi-compat.py:172-225 | reports exactly the findings of the specification |
| Documents.DocumentIsRead | scripts/check-openapi-compat.py:53-107 | of a document written with one operation and its schemas, exactly that operation and those schemas are read |
| Documents.OtherMembersAreNone | scripts/check-openapi-compat.py:97-107 | a member of a path that is none of the eight methods is no operation |
| Documents.OperationIsRead | scripts/check-openapi-compat.py:110-121 | what is read of a written operation are its parameters, which of them are required, its statuses, and the schemas of its body and of each answer |
| Documents.FirstSchemaIs | scripts/check-openapi-compat.py:116-121 | of the contents of an answer the first with a schema is read |
| Documents.ObjectIsRead | scripts/check-openapi-compat.py:87-94 | what is read of a written object schema are its required names and the signature of each property |
| Documents.ReferenceIsRead | scripts/check-openapi-compat.py:57-67 | a reference in a written document means the schema of that name |
| Documents.ReferencesAreCompared | scripts/check-openapi-compat.py:190-209 | two documents whose answers refer to a schema: the check is silent if and only if the status is no success or the two schemas pass as a response |
| Documents.LossIsReported | scripts/check-openapi-compat.py:141-146 | two documents in which the schema that a success refers to loses a property: the check reports it |
| Silence.RequestIsSilent | scripts/check-openapi-compat.py:141-161 | nothing is found about two request schemas if and only if no name became required, shared properties have equal signatures, and no declared required property is gone |
| Silence.ResponseIsSilent | scripts/check-openapi-compat.py:141-169 | nothing is found about two response schemas if and only if no property is gone, shared ones have equal signatures, and no guaranteed name that is still declared lost its guarantee |
| Silence.SilenceMeans | scripts/check-openapi-compat.py:172-225 | the check reports nothing if and only if every operation and schema is there and every request, status, success response and parameter list passes |
| Silence.CheckAgainstItself | scripts/check-openapi-compat.py:172-225 | nothing is found about a document and itself |
| Clients.MessagesFit | scripts/check-openapi-compat.py:139-169 | every message of one schema fits another if and only if the sender can send none, or the receiver requires no more names, accepts every value the sender may give a name both declare, and any value for a required name the sender does not declare |
| Clients.ShapesCarryValues | scripts/check-openapi-compat.py:139-169 | what passes as a request, no untyped name being typed, carries every message over for every reader to whom unread members demand no more |
| Clients.ShapesFitExactly | scripts/check-openapi-compat.py:139-169 | it passes so if and only if every message fits whatever types, formats and references mean, and shared properties accept the same values |
| Compatibility.SelectionsAccepted | scripts/check-openapi-compat.py:211-220 | every selection of parameters an old client may send is accepted if and only if nothing is required that was not |
| Compatibility.CheckIsSound | scripts/check-openapi-compat.py:172-225 | silence, with names out of the blind spots, properties that can be told from their signatures, and unread members that demand no more, means that every old request is accepted, every success response can be read, and every status and selection of parameters is kept |
| Compatibility.FlatCheckIsSound | scripts/check-openapi-compat.py:172-225 | the same for every reader that looks at the members of a property's schema only, where old and new properties agree on all members that signatures leave out |
| Compatibility.CheckIsExact | scripts/check-openapi-compat.py:172-225 | for documents whose properties can be told from their signatures: silence, with names out of the blind spots, if and only if all that holds whatever types, formats and references mean, shared properties accept the same values, no property that is sent or read is gone, and every schema is there |
| BlindSpots.UnreadPasses | scripts/check-openapi-compat.py:70-84 | two documents with one property whose schemas differ in what a signature does not read: the check is silent, and they are compatible if and only if the new schema happens to accept what the old one does |
| BlindSpots.ItemsPass | scripts/check-openapi-compat.py:70-84 | array items that change pass in both directions, and break a client whose array meets only the old ones |
| BlindSpots.CommaPasses | scripts/check-openapi-compat.py:80-81 | two documents whose enumerations are one value with a comma and its two halves pass in both directions, and are compatible in neither |
| BlindSpots.PrintedAlikePasses | scripts/check-openapi-compat.py:80-81 | two documents that enumerate two values which print alike: the check is silent, and a client that sends the one is refused |
| BlindSpots.GrowthIsReported | scripts/check-openapi-compat.py:147-154 | two documents in which a request enumeration gains a value: the check reports it, and every old request is accepted |
| BlindSpots.OptionalBecomesRequired | scripts/check-openapi-compat.py:211-220 | two documents in which an optional parameter becomes required: the check is silent, and clients break |
| BlindSpots.UndeclaredRequestName | scripts/check-openapi-compat.py:141-161 | two documents in which a required, undeclared name gets a schema: the check is silent, and a client whose value the schema does not accept is refused |
| BlindSpots.UndeclaredResponseName | scripts/check-openapi-compat.py:162-169 | two documents in which a guaranteed, undeclared name is dropped: the check is silent, and the guarantee is gone |
| Migrations.Verdicts | backend/migration-core/src/validate.rs:118-208 | Divergent, Empty, Legacy and Bridged, each with exactly when it is given; Legacy if and only if the tracks are empty and the non-empty history equals the expected set |
| Migrations.OrderDoesNotMatter | backend/migration-core/src/validate.rs:118-208 | the verdict is about which versions are there, not their order or repetition |
| Migrations.RunsAreNeverDivergent | backend/migration-core/src/validate.rs:118-208 | along every legal run, also across newer builds, the verdict is never divergent and follows from the first state and whether a track has begun |
| Migrations.NoWayBack | backend/migration-core/src/validate.rs:163-187 | once a track has a version, no later state is empty or legacy |
| Migrations.RollbackWindow | backend/migration-core/src/validate.rs:150-161 | an older build is accepted if and only if it knows every applied track version, and then gives the same verdict |
| Migrations.HalfABridgeIsCaught | backend/migration-core/src/validate.rs:163-178 | a legacy database in which the bridge recorded only one baseline is divergent |
| Migrations.PublicBuild | backend/migration-core/src/validate.rs:137-161 | a build without legacy history accepts a database if and only if it has none either and knows every version in the tracks |

## Left out

- HTTP, SSE streaming, handlers, configuration, SQL and the database entities: plumbing around the logic modelled here.
- Logging, tracing fields, error texts and messages: only whether and which error is given.
- Unicode tables (alphanumeric, decimal digit, lower case) are parameters that agree with ASCII; the parser of one floating-point number is a parameter that agrees on digit strings; how a JSON value prints is a parameter.
- Floating point: backoff, jitter and transcript times are reals; infinities, NaN and rounding are not modelled.
- Overflow panics of debug builds: machine arithmetic is that of a release build.
- RateLimiter.VoyageRateLimiter.Acquire: one caller at a time; overlapping callers are the step systems of `RateLimiter.EveryWindowIsBounded` and `RateLimiter.EveryTokenWindowIsBounded`. The request bound is promised for readings at the very first instant of the clock or at least one window after it, because it fails at every other (`RateLimiter.EveryUnsafeReadingOverfills`).
- `stats` of the limiter: two read-only sums. `state` of the breaker: a request without an answer.
- The breaker's lifetime totals of requests and failures: they feed a status page only. The number of probes in half-open is not limited by the code.
- Breaker.OutageIsKept: serialised calls, because of the interleaving in `Breaker.StaleCheckHappens`.
- Resilience.ExecutionContract: the 32-bit attempt counter would overflow for `max_retries` of 2^32 − 1; the model counts without bound.
- Which errors are retryable, and how a delay is read out of an error: inputs of the model.
- `error_rate` itself, a floating-point quotient; what makes it unbounded is stated of the two counters.
- Batches.EmbedDocuments: rate limiting between batches and the progress callback are not part of this model; `RateLimiter` has the first.
- The deterministic embedder and the choice of the most relevant source: a hash into buckets and a first maximum, each one loop with little to prove.
- Reading provenance out of JSON metadata: the provenance is an input.
- Evidence.SupportGrows: one way, because a number that goes on over the seam may still be read, with the same value or elsewhere in the text; `Evidence.SupportGrowsExactly` is the condition that misses none of these.
- Number words above 10^15 in English and 10^6 in French, and ordinals: the round trips stop there; the parser itself is modelled in full.
- `strip_fmt_param` and `set_fmt_param`: string surgery on a URL.
- OpenApi.CompareObject: which findings are reported, not their order, wording or repetition.
- OpenApi.Check: a container of the wrong JSON kind, or a required list with something other than strings in it, makes the script raise or compare oddly; the model reads the first as empty and skips the second.
- Compatibility.CheckIsExact: what types, formats and references mean, and what the members a signature does not read (items, nested properties, ranges) demand of a value, are parameters of a reader; the script reads none of it. Bodies that are not objects are compared as the script does, as objects without properties. Parameters are names and places.
- Signatures.Get: a member that an object repeats is read at its first place (`Signatures.GetIsFirst`), while the script's JSON reader keeps the last.
- Printing remediation texts and reading the history tables: the three lists of versions are inputs.
