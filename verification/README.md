# RAVENNAKIT: a verified model

This project models seven parts of RAVENNAKIT, a library for RAVENNA, AES67 and ST 2110-30 audio over
IP, in Dafny 4.11, and proves what they promise.

- `RwLock.dfy`: the reader/writer lock held in one 32-bit word, as a protocol with one step for each
  atomic operation, for any number of threads and any interleaving; and the lock's functions as
  methods of a class that other threads may interfere with between any two operations.
- `Texts.dfy`, `StringParser.dfy`, `Percent.dfy`, `Uri.dfy`, `UriText.dfy`, `SdpMedia.dfy`: the consuming
  parser, percent encoding, the URI printer and parser, what every text means as a URI, and the media line of
  a session description.
- `Statistics.dfy`, `PtpClock.dfy`, `ClockServo.dfy`: the sliding statistics, the corrected clock, and the
  servo that steers it, over whole runs of measurements; `OutlierRun.dfy`: a family of runs in which the
  filter ignores everything; `ServoMirror.dfy`: runs with all offsets negated.
- `BestMaster.dfy`, `PtpPort.dfy`, `PtpInstance.dfy`, `PtpRuns.dfy`, `PtpBrokenRun.dfy`, `PtpPortTable.dfy`,
  `PtpObjects.dfy`: comparing announce messages, the foreign master list, one port, one state decision
  of a slave-only instance, every run of such an instance, and the table of its ports.
- `StringBuffer.dfy`: the incremental buffer against reading the whole stream at once.
- `Bytes.dfy`, `Rtp.dfy`, `Rtcp.dfy`: byte order, the RTP encoder and view, and the walk through compound
  RTCP packets.
- `Blocks.dfy`, `AudioData.dfy`: swapping bytes in place, and interleaving.

Where the original changes things step by step there is a class or a method with a loop, proved against
a function of its inputs or its old state; the properties are lemmas about those functions. The URI, SDP
and PTP components are also complete in the error cases: an exception or an error return is an `Err` with
the same message or meaning.

## Reading the model

- Numbers: `double` is `real`, without rounding. The square root is passed in as the standard deviation,
  any non-negative s with s * s equal to the variance, and `Statistics.FlaggedIsFar` shows that nothing else
  about it matters. Timestamps stay whole nanoseconds, and the rounding to them is modelled; their 64-bit
  seconds do not overflow. The 16-bit and 32-bit fields that the properties depend on wrap where the
  original wraps.
- The lock: atomic operations are sequentially consistent and one step each. Sleeping and
  yielding between two operations change nothing, so they are left out.
- Texts are sequences of bytes, written as characters below 256; `isalnum` is that of the C locale. The
  query is printed in an arbitrary order of its entries; that of the original's ordered map is one.
- `RAV_ASSERT` logs and goes on by default. Where an assertion could be reached, the model goes on too:
  `skip_n` stops at 100000 spaces, and a change of state to master is only logged.
- PTP: the instance is slave-only with clock class 255, as its constructor makes it. A clock identity is
  eight bytes read as one big-endian number. Looking up a network interface is a parameter. Reading the
  value of an empty optional is undefined in the original; a run of the model then has no next state.
- The original prefers the larger of two grandmaster identities when everything else is equal, where
  section 9.3.4 of IEEE 1588-2019 prefers the smaller; the model follows the original.
- A comment in `ptp_instance.cpp` (lines 389-390) speaks of a maximum of measurements that are filtered out
  in a row. There is none: `OutlierRun.NoMaximumIgnored` gives a run for every length. It is about exact reals;
  its first offset is 10^-(n+1) seconds, which a double cannot hold for n above about 322. `ClockServo.IgnoredIff`
  says exactly when a measurement is ignored, and `ClockServo.EnoughBeyondApplied` and
  `ClockServo.ThirteenBeyondApplied` what holds instead of a maximum; `Statistics.BoundIsSharp` shows that no
  smaller share of a window will do.
- Four promises hold only under a condition. `Uri.RoundTrip` and `SdpMedia.MediaRoundTrip` state it, exact in
  both directions. For the dereference in the state decision `PtpRuns.DecisionAnchors` states it, with
  `PtpBrokenRun.DereferenceCanBeUndefined` as the run that goes wrong without it; and for the debug
  assertion in `unlock_shared` `RwLock.UnlockAssertions` does, with `RwLock.UnlockAssertionCanFail`.

## Model

| member | source | states |
|---|---|---|
| RwLock.AdvanceKeepsMeaning | include/ravennakit/core/sync/atomic_rw_lock.hpp:100-235 | any one atomic operation of any agent keeps what the word means: waiting bit, exclusive bit, shared guards plus increments not yet undone |
| RwLock.InvReachable | include/ravennakit/core/sync/atomic_rw_lock.hpp:100-235 | in every interleaving of any number of threads, up to 2^30 - 2^24 calls at once, the invariant of the word holds |
| RwLock.MutualExclusion | include/ravennakit/core/sync/atomic_rw_lock.hpp:100-235 | in every reachable state at most one exclusive guard exists and never beside a shared one; the word is waiting*2^31 + exclusive*2^30 + shared guards + rejected increments, with no carry into the flag bits |
| RwLock.NoStaleWaitingBit | include/ravennakit/core/sync/atomic_rw_lock.hpp:100-124 | in every reachable state a set waiting bit has a writer still in the loop of lock_exclusive, and an idle lock is zero, although any writer clears the bit for all |
| RwLock.SharedGrantedIff | include/ravennakit/core/sync/atomic_rw_lock.hpp:171-186 | a reader about to add gets its guard exactly when no writer waits or holds and fewer than 2^24 - 1 shared guards and undone increments are counted |
| RwLock.ExclusiveGrantedIff | include/ravennakit/core/sync/atomic_rw_lock.hpp:133-139 | the first attempt succeeds exactly when no guard is held, no rejected increment is pending and no writer waits |
| RwLock.TurnedAwayIff | include/ravennakit/core/sync/atomic_rw_lock.hpp:171-185 | a test turns a reader away exactly when a writer waits or holds, or guards and undone increments are at the limit; the load passes exactly otherwise |
| RwLock.WaitingGrantedIff | include/ravennakit/core/sync/atomic_rw_lock.hpp:106-112 | the swap in the loop takes the lock exactly when the bit is still set, no guard is held and no increment is to be undone |
| RwLock.WriterTriesAgain | include/ravennakit/core/sync/atomic_rw_lock.hpp:100-124 | a writer whose first attempt fails sets the bit and swaps again and again for 10^6 iterations, and then clears the bit |
| RwLock.TriesAgain | include/ravennakit/core/sync/atomic_rw_lock.hpp:147-161 | a reader that was turned away stands before its next load as long as it has another attempt, and is done otherwise |
| RwLock.NoReaderEnters | include/ravennakit/core/sync/atomic_rw_lock.hpp:171-186 | no single step grants a shared guard while the waiting bit is set |
| RwLock.WriterPreference | include/ravennakit/core/sync/atomic_rw_lock.hpp:106-112 | over any stretch of a run in which the waiting bit stays set, no agent gains a shared guard, not even one that loaded the word before the bit was set |
| RwLock.LastStretch | include/ravennakit/core/sync/atomic_rw_lock.hpp:106-112 | once readers, rejected increments and exclusive holders are gone, one iteration of a waiting writer run back to back takes the lock |
| RwLock.WriterCanAcquire | include/ravennakit/core/sync/atomic_rw_lock.hpp:106-112 | from every consistent state there is a run to the lock for a waiting writer in which each blocker makes one step, the writer two, and nobody else moves |
| RwLock.ReaderCanAcquire | include/ravennakit/core/sync/atomic_rw_lock.hpp:147-186 | from every consistent state without a waiting writer there is a run to a shared guard for a reader with an attempt left, rejected or not, in which each blocker makes one step, the reader at most two more, and nobody else moves |
| RwLock.CallsEnd | include/ravennakit/core/sync/atomic_rw_lock.hpp:100-186 | whatever other threads do, each step brings a call nearer to its end; the bounds are 1, 3, 2*10^6 + 2 and 3*10^6 steps |
| RwLock.UnlockAssertions | include/ravennakit/core/sync/atomic_rw_lock.hpp:220-235 | the debug assertions of both unlocks hold in every consistent state, but the one on the low bits in unlock_shared holds exactly when guards plus undone increments are no multiple of 2^24; with at most 0xFFFFFF of them it always holds |
| RwLock.UnlockAssertionCanFail | include/ravennakit/core/sync/atomic_rw_lock.hpp:231-235 | a run from the initial state after which a reader that unlocks finds the low 24 bits zero |
| RwLock.ReadersAlwaysEnter | include/ravennakit/core/sync/atomic_rw_lock.hpp:147-186 | without writers and with at most 2^24 - 1 reader calls and guards at a time every attempt of every reader passes both tests |
| RwLock.AtomicRwLock.TryLockExclusive | include/ravennakit/core/sync/atomic_rw_lock.hpp:133-139 | with any interference of other threads between its operations: a guard is returned only with nobody else holding one; the state stays on a run of the protocol |
| RwLock.AtomicRwLock.LockExclusive | include/ravennakit/core/sync/atomic_rw_lock.hpp:100-124 | the retry loop under interference returns a guard only with nobody else holding one; it gives up only after its first attempt and all 10^6 iterations, and its last operation is then the one that clears the waiting bit |
| RwLock.AtomicRwLock.TryLockShared | include/ravennakit/core/sync/atomic_rw_lock.hpp:171-186 | under interference a guard is returned only while no exclusive guard exists, and none is returned exactly when one of the two tests turned the call away |
| RwLock.AtomicRwLock.LockShared | include/ravennakit/core/sync/atomic_rw_lock.hpp:147-161 | the retry loop under interference returns a shared guard only while no exclusive guard exists; without one it has made exactly 10^6 loads, each turned away there or at its increment, and with one it was turned away at every load but the last |
| RwLock.AtomicRwLock.AddOnce | include/ravennakit/core/sync/atomic_rw_lock.hpp:178-185 | the increment is kept for a granted guard and undone for a rejected one, which is counted as one rejection |
| RwLock.AtomicRwLock.SpinOnce | include/ravennakit/core/sync/atomic_rw_lock.hpp:106-112 | one iteration sets the waiting bit and swaps it for the exclusive bit or moves to the next iteration |
| RwLock.AtomicRwLock.UnlockExclusive | include/ravennakit/core/sync/atomic_rw_lock.hpp:220-223 | releasing an exclusive guard finds its bit set, whatever the others did meanwhile |
| RwLock.AtomicRwLock.UnlockShared | include/ravennakit/core/sync/atomic_rw_lock.hpp:231-235 | releasing a shared guard finds no exclusive bit, and finds the low bits non-zero exactly under the condition of UnlockAssertions |
| Texts.FindIsFirst | include/ravennakit/core/string_parser.hpp:118-121 | a delimiter is found at its first occurrence, and not found only if it occurs nowhere |
| Texts.ReadUntilPartitions | include/ravennakit/core/string_parser.hpp:113-126 | what is read, the delimiter and what is left make up the text; the part read does not contain the delimiter |
| Texts.ReadUntilAfter | include/ravennakit/core/string_parser.hpp:113-174 | reading up to a delimiter whose first byte the front lacks yields that front, for read_until and split alike |
| Texts.ReadWithDelimiter | include/ravennakit/core/string_parser.hpp:131-174 | the same with the delimiter included |
| Texts.LineIsRead | include/ravennakit/core/string_parser.hpp:181-216 | a line is read without its end and what follows is left, whether it ends in CR LF or, not ending in CR itself, in LF alone |
| Texts.NoLineYet | include/ravennakit/core/string_parser.hpp:181-216 | without a newline read_until_newline reads nothing and read_line the rest as it is |
| Texts.RunIsLongest | include/ravennakit/core/string_parser.hpp:327-336 | the run that is skipped is made of the byte and ends at the limit, at the end or at another byte |
| Texts.ReadIntSkipsSpaces | include/ravennakit/core/string_parser.hpp:238-249 | up to 100000 spaces are skipped; then a number within the limit is read, and a larger one or anything else is left |
| Texts.ReadDecimal | include/ravennakit/core/string_parser.hpp:238-249 | reading an integer off a printed one followed by a non-digit yields the integer and the rest, within the limit of the type |
| Texts.ValueOfDecimal | include/ravennakit/core/string_parser.hpp:238-249 | the decimal digits of a number have its value |
| Texts.DecimalStarts | src/ravennakit/core/uri.cpp:108-111 | a printed number has no leading zero |
| StringParser.Parser.ReadUntil | include/ravennakit/core/string_parser.hpp:113-126 | the method reads and leaves what the specification says, with or without the delimiter, and nothing when there is none |
| StringParser.Parser.Split | include/ravennakit/core/string_parser.hpp:159-174 | the method reads up to the delimiter or to the end |
| StringParser.Parser.ReadUntilEnd | include/ravennakit/core/string_parser.hpp:222-229 | the rest is read and nothing is left |
| StringParser.Parser.Skip | include/ravennakit/core/string_parser.hpp:298-305 | the sequence is skipped exactly when the text starts with it |
| StringParser.Parser.SkipN | include/ravennakit/core/string_parser.hpp:327-336 | the loop skips the run of that byte, at most the given number, and says how many |
| StringParser.Parser.ReadInt | include/ravennakit/core/string_parser.hpp:238-249 | leading spaces, then digits within the limit of the type; on failure the spaces stay skipped |
| StringParser.Parser.ReadUntilNewline | include/ravennakit/core/string_parser.hpp:200-216 | a line up to LF without its CR, by the same specification as the buffer |
| StringParser.Parser.ReadLine | include/ravennakit/core/string_parser.hpp:181-194 | a line, or the rest when no newline is left |
| Percent.DecodeEncode | src/ravennakit/core/uri.cpp:146-183 | decoding an encoded byte string gives it back, with matching plus flags and either slash flag |
| Percent.EscapeIsByte | src/ravennakit/core/uri.cpp:171-175 | for every byte an escape with its two digits, each in either case, decodes to that byte |
| Percent.DigitHasPlace | src/ravennakit/core/uri.cpp:171-175 | nothing but those digits is taken for a digit |
| Percent.CaseDoesNotMatter | src/ravennakit/core/uri.cpp:167-183 | texts that differ only in the case of the digits of their escapes decode alike, exceptions included (section 2.1 of RFC 3986) |
| Percent.PairIsStoi | src/ravennakit/core/uri.cpp:171-175 | any two bytes after a percent sign are read as std::stoi in base 16 reads them: spaces, a sign, digits up to the first other byte, an exception without a digit |
| Percent.NoEscape | src/ravennakit/core/uri.cpp:171-180 | a text without a percent sign before its last two bytes stands for itself, but for plus signs when they are decoded |
| Percent.EncodedByte | src/ravennakit/core/uri.cpp:146-161 | one byte: the unreserved bytes of section 2.3 of RFC 3986 stay, slash and space as asked for, all others become an escape in upper case |
| Percent.EncodedBytes | src/ravennakit/core/uri.cpp:146-161 | encoded text consists of unreserved bytes, percent signs and, if asked for, plus signs and slashes |
| Percent.NoDelimiters | src/ravennakit/core/uri.cpp:146-161 | encoded text never contains any of : @ ? # & = and, when slashes are encoded, no slash |
| Percent.EncodeAppend | src/ravennakit/core/uri.cpp:146-161 | encoding distributes over concatenation |
| Percent.EncodedSlash | src/ravennakit/core/uri.cpp:150-158 | encoded with slashes kept, a text contains a slash exactly when the original does |
| Percent.EncodeText | src/ravennakit/core/uri.cpp:146-161 | the loop computes the encoding |
| Percent.DecodeText | src/ravennakit/core/uri.cpp:167-183 | the loop computes the decoding, stoi of two characters and its exceptions included |
| Uri.EveryMapEnumerates | src/ravennakit/core/uri.cpp:126-135 | every query map can be printed in some order of its entries |
| Uri.QueryRoundTrip | src/ravennakit/core/uri.cpp:126-135 | parsing a printed query gives the map back, empty keys and values included, whatever the order of the entries |
| Uri.AuthorityRoundTrip | src/ravennakit/core/uri.cpp:39-60 | user, password, host and port come back from the printed authority, whatever bytes they contain |
| Uri.TailRoundTrip | src/ravennakit/core/uri.cpp:62-81 | path, query and fragment come back, except that an empty rest of a path is not told from a missing one without query and fragment |
| Uri.ParsePrinted | src/ravennakit/core/uri.cpp:28-144 | what parse makes of a printed URI without slashes in its authority |
| Uri.SlashInCredentials | src/ravennakit/core/uri.cpp:40-51 | a slash in user or password loses both |
| Uri.SlashInHost | src/ravennakit/core/uri.cpp:40-55 | a slash in the host changes the host |
| Uri.RoundTrip | src/ravennakit/core/uri.cpp:28-144 | parse(to_string(u)) == u exactly when user, password and host have no slash and the path is empty without query and fragment, or starts with a slash and is longer than one unless a query or fragment follows |
| UriText.TextIsRead | src/ravennakit/core/uri.cpp:28-84 | parsing any text put together from raw pieces (scheme, user, password, host, port, path, query, fragment, each there or not) gives the URI of the decoded pieces, or the first exception |
| UriText.EveryTextHasPieces | src/ravennakit/core/uri.cpp:28-84 | every text with the mark of a scheme is put together in this way, and any other is the exception for the scheme; so what parse does is known for every text |
| UriText.AuthorityIsRead | src/ravennakit/core/uri.cpp:39-60 | the credentials end at the first @, the user and the host at the first colon; each may be missing |
| UriText.RestIsRead | src/ravennakit/core/uri.cpp:62-81 | the path ends at the first question mark, or without one at the first #; each part may be missing or empty |
| UriText.QueryStringIsRead | src/ravennakit/core/uri.cpp:185-201 | after one question mark, if there is one, a query means its entries, decoded, later ones over earlier ones, except that a last value that is missing altogether leaves the value its key has; a rest without an equals sign is an exception |
| UriText.EveryQueryIsText | src/ravennakit/core/uri.cpp:185-201 | every text is made of such entries and a rest without an equals sign |
| Uri.ParseQueryString | src/ravennakit/core/uri.cpp:185-201 | the loop computes the query map, or the exception |
| Uri.ParseAuthorityText | src/ravennakit/core/uri.cpp:41-59 | the reads from the authority in their order compute its four parts |
| Uri.ParseTailText | src/ravennakit/core/uri.cpp:62-81 | the three alternatives for the path compute path, query and fragment |
| Uri.ParseUri | src/ravennakit/core/uri.cpp:28-84 | the whole parser computes the specified URI or exception |
| Uri.PrintQuery | src/ravennakit/core/uri.cpp:126-135 | the loop prints the entries with the last ampersand removed |
| Uri.Print | src/ravennakit/core/uri.cpp:86-144 | the appends make up the printed URI |
| SdpMedia.FormatsRoundTrip | src/ravennakit/sdp/sdp_media_description.cpp:237-239 | printed payload types are parsed back, all of them and in order |
| SdpMedia.MediaRoundTrip | src/ravennakit/sdp/sdp_media_description.cpp:228-370 | parsing a printed media line gives type, port, number of ports, protocol and payload types back exactly when type and protocol have no space, there is at least one port, and protocol or formats are not empty (section 5.14 of RFC 8866) |
| SdpMedia.TypeHasNoSpace | src/ravennakit/sdp/sdp_media_description.cpp:330-358 | no parsed media type or protocol contains a space |
| SdpMedia.LineIsRead | src/ravennakit/sdp/sdp_media_description.cpp:320-370 | a media line with any spaces before its numbers, with or without a number of ports, and with anything but a digit after a payload type is read as it is meant, or fails with the message of the first step that cannot be done |
| SdpMedia.LineFails | src/ravennakit/sdp/sdp_media_description.cpp:320-360 | the message for a missing prefix, media type, port, number of ports or protocol |
| SdpMedia.PrintMediaLine | src/ravennakit/sdp/sdp_media_description.cpp:228-239 | the loop prints the line |
| SdpMedia.ParseMediaDescription | src/ravennakit/sdp/sdp_media_description.cpp:320-370 | the reads in their order compute the media or the error message of the step that fails |
| SdpMedia.ParseFormatList | src/ravennakit/sdp/sdp_media_description.cpp:360-367 | the loop collects the payload types or stops at the first that is no 8-bit integer |
| Statistics.SortedKeeps | include/ravennakit/core/math/sliding_stats.hpp:228 | sorting yields an ordered permutation with the same sum of absolute deviations |
| Statistics.SortedUnique | include/ravennakit/core/math/sliding_stats.hpp:228 | any ordered permutation is that one, so it does not matter how std::sort works |
| Statistics.MedianOfSortedMinimises | include/ravennakit/core/math/sliding_stats.hpp:229-235 | the middle element, or the average of the middle two, minimises the sum of absolute deviations and lies between the ends |
| Statistics.MedianMinimises | include/ravennakit/core/math/sliding_stats.hpp:228-235 | no number has a smaller sum of absolute deviations from the window than the computed median |
| Statistics.SquareOfSum | include/ravennakit/core/math/sliding_stats.hpp:85-94 | the square of the sum of n absolute deviations is at most n times the sum of their squares |
| Statistics.MeanNearMedian | include/ravennakit/core/math/sliding_stats.hpp:85-94 | (mean - median)^2 <= variance for every non-empty window |
| Statistics.OutlierIff | include/ravennakit/core/math/sliding_stats.hpp:162-168 | the z-score test as a comparison of squares, for every threshold, a standard deviation of zero included |
| Statistics.FlaggedIsFar | include/ravennakit/core/math/sliding_stats.hpp:162-168 | the test does not depend on how the square root is computed |
| Statistics.FewOutliers | include/ravennakit/core/math/sliding_stats.hpp:162-168 | at threshold t fewer than n / t^2 of the n samples of the window are flagged, if any |
| Statistics.BeyondNearMean | include/ravennakit/core/math/sliding_stats.hpp:162-168 | when k of n samples lie at a value or beyond it on its side of the mean, k * (value - mean)^2 <= (n - k) * variance |
| Statistics.BeyondNotFar | include/ravennakit/core/math/sliding_stats.hpp:162-168 | such a value is not flagged at threshold t when n - k <= k * t^2 |
| Statistics.BoundIsSharp | include/ravennakit/core/math/sliding_stats.hpp:162-168 | for every k and n with n - k > k * t^2 there is a window of n samples in which a value with k of them at it is flagged, so the bound cannot be improved |
| Statistics.EnoughBeyondNotFar | include/ravennakit/core/math/sliding_stats.hpp:162-168 | at threshold 1.75 no value with at least 16/65 of the samples at it or beyond it is flagged |
| Statistics.RepeatedNearMean | include/ravennakit/core/math/sliding_stats.hpp:162-168 | a value that occurs k times among n satisfies k * (value - mean)^2 <= (n - k) * variance |
| Statistics.RepeatedNotFar | include/ravennakit/core/math/sliding_stats.hpp:162-168 | a value that occurs k times among n is not flagged when n - k <= k * t^2 |
| Statistics.RepeatedNotFlagged | include/ravennakit/core/math/sliding_stats.hpp:162-168 | the same for the test with the square root |
| Statistics.FourNeverFlagged | include/ravennakit/core/math/sliding_stats.hpp:162-168 | at threshold 1.75 none of at most 4 samples of a window is flagged |
| Statistics.FiveCanFlag | include/ravennakit/core/math/sliding_stats.hpp:162-168 | a window of 5 in which one sample is flagged at 1.75 |
| Statistics.ThirteenNotFar | include/ravennakit/core/math/sliding_stats.hpp:162-168 | no value that makes up 13 of at most 51 samples is flagged at 1.75 |
| Statistics.ExtremesBound | include/ravennakit/core/math/sliding_stats.hpp:217-226 | minimum and maximum are samples and bound all samples |
| Statistics.MeanBetweenExtremes | include/ravennakit/core/math/sliding_stats.hpp:227 | the mean lies between minimum and maximum |
| Statistics.MedianBetweenExtremes | include/ravennakit/core/math/sliding_stats.hpp:228-235 | so does the median |
| Statistics.PeakDeviationIsLargest | include/ravennakit/core/math/sliding_stats.hpp:134-136 | the peak deviation is attained by a sample and exceeded by none |
| Statistics.VarianceBelowPeak | include/ravennakit/core/math/sliding_stats.hpp:85-136 | the variance is at most the square of the peak deviation |
| Statistics.WindowIsSuffix | include/ravennakit/core/math/sliding_stats.hpp:63-66 | after any run of additions the window holds the last values, as many as fit |
| Statistics.SlidingStats.Add | include/ravennakit/core/math/sliding_stats.hpp:63-66 | the full window drops its oldest value, and the stored statistics are those of the new window |
| Statistics.SlidingStats.Recalculate | include/ravennakit/core/math/sliding_stats.hpp:209-236 | the loop leaves mean, median, minimum and maximum of the window |
| Statistics.SlidingStats.GetVariance | include/ravennakit/core/math/sliding_stats.hpp:85-94 | the loop computes the variance of the window |
| Statistics.SlidingStats.IsOutlierZscore | include/ravennakit/core/math/sliding_stats.hpp:162-168 | the method answers the z-score test |
| Statistics.SlidingStats.PeakDeviationFromMean | include/ravennakit/core/math/sliding_stats.hpp:134-136 | the result is the largest distance of a sample from the mean |
| Statistics.SlidingStats.Reset | include/ravennakit/core/math/sliding_stats.hpp:185-192 | the window is empty and the statistics are zero |
| PtpClock.SplitDuration | include/ravennakit/ptp/types/ptp_timestamp.hpp:152-155 | whole seconds and rounded nanoseconds make up the rounded nanoseconds of the duration |
| PtpClock.RoundIsNearest | include/ravennakit/ptp/types/ptp_timestamp.hpp:152-155 | rounding goes to the nearest nanosecond, from halfway away from zero, alike for both signs |
| PtpClock.AddSecondsIsAddition | include/ravennakit/ptp/types/ptp_timestamp.hpp:152-187 | carry, borrow and the two ways of giving up amount to exact addition of the rounded duration, cut off at zero, and keep the timestamp normalised |
| PtpClock.AdjustedTimeIsReading | include/ravennakit/ptp/ptp_local_clock.hpp:50-57 | the adjusted time in nanoseconds: last synchronisation plus stretched elapsed time plus shift, cut off at zero after either addition |
| PtpClock.ReadingAtSync | include/ravennakit/ptp/ptp_local_clock.hpp:50-98 | at the instant T of an update the clock reads T + shift, whatever the ratio |
| PtpClock.NeverBackwards | include/ravennakit/ptp/ptp_local_clock.hpp:50-57 | between updates the adjusted time never decreases |
| PtpClock.AdvancesByRatio | include/ravennakit/ptp/ptp_local_clock.hpp:50-57 | over any stretch the clock advances by ratio times the system time, within a nanosecond of rounding, and strictly once that is a nanosecond or more |
| PtpClock.SmallOffsetRatio | include/ravennakit/ptp/ptp_local_clock.hpp:78-80 | for an offset below a second the ratio stays within a thousandth of 1, so the clamp never acts |
| PtpClock.RatioCorrects | include/ravennakit/ptp/ptp_local_clock.hpp:78-80 | a clock ahead of its master is slowed down and one behind is sped up, by at most a half |
| PtpClock.RatioIsCubic | include/ravennakit/ptp/ptp_local_clock.hpp:78-80 | the correction is a thousandth at one second and grows with the cube of the offset: k^3 times for k times the offset |
| PtpClock.RatioClamped | include/ravennakit/ptp/ptp_local_clock.hpp:78-80 | the ratio is the nominal one between a half and one and a half, and the nearer of the two outside |
| PtpClock.LocalClock.Adjust | include/ravennakit/ptp/ptp_local_clock.hpp:73-82 | all five fields after an adjustment |
| PtpClock.LocalClock.Step | include/ravennakit/ptp/ptp_local_clock.hpp:89-96 | all five fields after a step |
| PtpClock.LocalClock.SetCalibrated | include/ravennakit/ptp/ptp_local_clock.hpp:133-135 | only the flag changes |
| PtpClock.LocalClock.GetAdjustedTime | include/ravennakit/ptp/ptp_local_clock.hpp:50-57 | the two additions compute the reading |
| ClockServo.ShiftIsMinusApplied | src/ravennakit/ptp/ptp_instance.cpp:375-429 | over every run of measurements the shift is minus the sum of all offsets that were stepped or adjusted |
| ClockServo.RatioNearOne | src/ravennakit/ptp/ptp_instance.cpp:380-400 | in every run the frequency ratio stays between 0.999 and 1.001 |
| ClockServo.ReadingAtMeasurement | src/ravennakit/ptp/ptp_instance.cpp:375-429 | at the instant of an applied measurement the clock reads the system time less everything applied so far |
| ClockServo.ClockAdvances | include/ravennakit/ptp/ptp_local_clock.hpp:50-98 | in every run, between measurements, the clock advances strictly over two nanoseconds |
| ClockServo.WindowIsRecent | src/ravennakit/ptp/ptp_instance.cpp:380-387 | the window holds the last 51 offsets since the last step, ignored ones included |
| ClockServo.CalibratedIff | include/ravennakit/ptp/ptp_local_clock.hpp:124-143 | the clock is calibrated exactly when it has had ten adjustments since its last step and at the last measurement that was applied, an adjustment, the median of the window lay between -0.0018 and 0.0018 |
| ClockServo.IgnoredIff | src/ravennakit/ptp/ptp_instance.cpp:389-394 | in every run a measurement is ignored exactly when it is below a second either way, ten adjustments have been made since the last step, the median was within 1.8 ms of zero at the last applied measurement, and it is an outlier at 1.75 of the window that includes it; it makes the clock step exactly when it is a second or more either way |
| ServoMirror.RunMirrored | src/ravennakit/ptp/ptp_instance.cpp:375-429 | negating every offset of a run negates the shift and the correction of the ratio and leaves all verdicts, the number of adjustments, the calibration and the count of ignored outliers |
| ServoMirror.MedianNegated | include/ravennakit/core/math/sliding_stats.hpp:228-235 | negating all samples negates their median |
| ServoMirror.NegatedIsFar | include/ravennakit/core/math/sliding_stats.hpp:162-168 | negating samples and value leaves the outlier test as it was |
| ClockServo.EnoughBeyondApplied | src/ravennakit/ptp/ptp_instance.cpp:389-400 | in every run a measurement is not ignored when at least 16/65 of its window lie at it or beyond it, on its side of the mean |
| ClockServo.ThirteenBeyondApplied | src/ravennakit/ptp/ptp_instance.cpp:389-400 | in every run a measurement that has thirteen of its window, itself included, at it or beyond it on its side of the mean is applied, so a lasting change is not filtered out for ever |
| ClockServo.ThirteenEqualApplied | src/ravennakit/ptp/ptp_instance.cpp:389-400 | in particular, of thirteen equal measurements in a row the last is applied in every run |
| OutlierRun.DominantIsFar | include/ravennakit/core/math/sliding_stats.hpp:162-168 | the last of at least ten non-negative samples is flagged at 1.75 when it is nine times the sum of the others |
| OutlierRun.NoMaximumIgnored | src/ravennakit/ptp/ptp_instance.cpp:389-394 | for every n a run of offsets up to a tenth of a second that ends in n measurements ignored in a row: the filter has no maximum |
| ClockServo.Instance.UpdateLocalPtpClock | src/ravennakit/ptp/ptp_instance.cpp:375-429 | clock, both windows and the count of ignored outliers after one measurement |
| ClockServo.ClockFollowsLastApplied | include/ravennakit/ptp/ptp_local_clock.hpp:73-96 | whatever measurement was applied last, the clock was synchronised at its time, with the ratio its offset asks for, or 1 after a step |
| ClockServo.FilteredIsAdjusted | src/ravennakit/ptp/ptp_instance.cpp:396-397 | the filtered window holds the last 51 offsets that were adjusted, across steps |
| ClockServo.IgnoredIsCounted | src/ravennakit/ptp/ptp_instance.cpp:391-421 | the count of ignored outliers is that since the last report, modulo 2^32 |
| BestMaster.NewerIff | include/ravennakit/core/util/wrapping_uint.hpp:199-254 | newer means ahead by at most half a turn; exactly half a turn apart each of two numbers is newer than the other |
| BestMaster.CompareMirrored | src/ravennakit/ptp/bmca/ptp_comparison_data_set.cpp:57-165 | comparing the other way round gives the mirror image |
| BestMaster.CompareFailsIff | src/ravennakit/ptp/bmca/ptp_comparison_data_set.cpp:57-165 | a comparison fails exactly for one grandmaster over paths that cannot be told apart |
| BestMaster.CompareIsLexicographic | src/ravennakit/ptp/bmca/ptp_comparison_data_set.cpp:114-165 | different grandmasters compare by the first in which they differ of priority1, class, accuracy, variance, priority2 and identity, the smaller being better but for the identity |
| BestMaster.PathsAreLexicographic | src/ravennakit/ptp/bmca/ptp_comparison_data_set.cpp:57-113 | two paths from one grandmaster, received by one clock from others, compare by steps, then sender, then port, and by topology alone up to a step of difference |
| BestMaster.BetterTransitive | src/ravennakit/ptp/bmca/ptp_comparison_data_set.cpp:57-165 | among sets received by one clock from others that describe each grandmaster alike, better is transitive |
| BestMaster.BetterCanCycle | src/ravennakit/ptp/bmca/ptp_comparison_data_set.cpp:57-165 | three sets of which each is better than the next, where two describe one grandmaster differently |
| BestMaster.OlderOk | include/ravennakit/ptp/bmca/ptp_foreign_master_list.hpp:131-139 | the count stays within what is left of the time window, so the unsigned subtraction never shows |
| BestMaster.AgeKeepsList | include/ravennakit/ptp/bmca/ptp_foreign_master_list.hpp:131-139 | ageing keeps the list in order |
| BestMaster.AddKeepsList | include/ravennakit/ptp/bmca/ptp_foreign_master_list.hpp:58-79 | adding a qualified message keeps one entry for each source, with its own messages |
| BestMaster.AddChangesOne | include/ravennakit/ptp/bmca/ptp_foreign_master_list.hpp:58-79 | a message changes the entry of its source alone: it opens one without messages, or is counted and kept unless it is up to half a turn of numbers older |
| BestMaster.PurgeKeepsList | include/ravennakit/ptp/bmca/ptp_foreign_master_list.hpp:85-104 | a purge keeps exactly the entries that are not to be purged |
| BestMaster.PurgedIff | include/ravennakit/ptp/bmca/ptp_foreign_master_list.hpp:85-104 | what survives a purge: the entry of the source of Erbest, and entries no older than four intervals with fewer than two messages |
| BestMaster.PurgeKeepsErbest | include/ravennakit/ptp/bmca/ptp_foreign_master_list.hpp:85-104 | the entry of the source of Erbest survives every purge |
| PtpPort.BestForeignIsBest | src/ravennakit/ptp/ptp_port.cpp:692-713 | when the competing messages describe each grandmaster alike, no competing message is better than the chosen one, whatever the order of the list |
| PtpPort.NextErbestBeats | src/ravennakit/ptp/ptp_port.cpp:692-723 | when competing messages and a followed Erbest describe each grandmaster alike, the Erbest after the calculation matches or beats every competing message, whether the port follows a source or not |
| PtpPort.FollowedErbestChangesIff | src/ravennakit/ptp/ptp_port.cpp:715-723 | then a port that follows a source changes its Erbest exactly when some competing message compares better than it |
| PtpPort.NextErbestSource | src/ravennakit/ptp/ptp_port.cpp:686-723 | Erbest is kept or comes from an entry with enough announce messages |
| PtpPort.CalculateKeepsPort | src/ravennakit/ptp/ptp_port.cpp:671-728 | the calculation keeps Erbest qualified and its source in the list, and never drops Erbest |
| PtpPort.OkMeetsAsserts | src/ravennakit/ptp/ptp_port.cpp:672-684 | a port in order meets the assertions on entry |
| PtpPort.FollowedErbestYields | src/ravennakit/ptp/ptp_port.cpp:689-723 | the Erbest of a following port is replaced only by a better one of another source |
| PtpPort.ThirdMessageCompetes | include/ravennakit/ptp/bmca/ptp_foreign_master_list.hpp:58-79 | of a source that was not in the list the third message makes its entry compete, and not the second |
| PtpPort.NextErbestIff | src/ravennakit/ptp/ptp_port.cpp:686-723 | a port leaves the calculation with an Erbest exactly when it had one or some entry competes |
| PtpPort.CompetingIsFound | src/ravennakit/ptp/ptp_port.cpp:692-713 | as soon as any entry competes there is a best message |
| PtpPort.PortObject.CalculateErbest | src/ravennakit/ptp/ptp_port.cpp:671-728 | the loop over the list, the comparison with the previous Erbest and the purge compute the next port, of which NextErbestBeats and FollowedErbestChangesIff speak |
| PtpPort.PortObject.UpdateErbest | src/ravennakit/ptp/ptp_port.cpp:513-523 | only a newer message of the same source replaces the Erbest of a following port |
| PtpPort.PortObject.FindEntry | include/ravennakit/ptp/bmca/ptp_foreign_master_list.hpp:144-162 | the loop finds the first entry of the source, or none |
| PtpPort.PortObject.SetStateTo | src/ravennakit/ptp/ptp_port.cpp:177-210 | the state changes, except to master or pre-master |
| PtpPort.PortObject.Record | include/ravennakit/ptp/bmca/ptp_foreign_master_list.hpp:58-79 | the entry of the source is brought up to date unless the message is older than its latest one, or a new one without messages is appended; nothing else changes |
| PtpPort.PortObject.IncreaseAge | src/ravennakit/ptp/ptp_port.cpp:340-342 | the loop makes every entry one interval older and changes nothing else |
| PtpPort.PortObject.SetInterface | src/ravennakit/ptp/ptp_port.cpp:348-371 | only the address changes |
| PtpPort.RecommendedWhen | src/ravennakit/ptp/ptp_port.cpp:96-123 | when each of the codes M1, M2, M3, S1, P1, P2 is recommended, for every class of clock |
| PtpInstance.PortsCompare | src/ravennakit/ptp/ptp_port.cpp:310-320 | two ports of one instance never fail to compare |
| PtpInstance.ScanAll | src/ravennakit/ptp/ptp_port.cpp:287-334 | every port is visited, and there is an Ebest exactly when some port has an Erbest |
| PtpInstance.EbestIsBest | src/ravennakit/ptp/ptp_port.cpp:287-334 | no Erbest of any port is better than Ebest, as long as messages describe each grandmaster alike |
| PtpInstance.ExecuteIs | src/ravennakit/ptp/ptp_instance.cpp:298-317 | what one state decision event does to every port, and when it is undefined |
| PtpInstance.DecisionDefinedIff | src/ravennakit/ptp/ptp_port.cpp:96-101 | in terms of the state before: the dereference is defined exactly when some port has an Erbest or an entry that competes, or all ports listen |
| PtpInstance.DecidedPort | src/ravennakit/ptp/ptp_port.cpp:113-156 | the state decided for a slave-only port: listening exactly when the own set does not beat Ebest, Ebest came over another port, and the port has no Erbest or one that is worse by topology only |
| PtpInstance.DecisionFollowsEbest | src/ravennakit/ptp/ptp_port.cpp:113-123 | a decision with an Ebest makes its source the parent, at one step more than it announced, and the port that received it slave, or uncalibrated while the clock is not calibrated |
| PtpInstance.RecommendedParent | src/ravennakit/ptp/ptp_instance.cpp:237-296 | a master code makes the own clock the parent at no steps, a slave code the source of the message at one step more, and no other code changes anything |
| PtpInstance.AddIs | src/ravennakit/ptp/ptp_instance.cpp:79-131 | the four reasons for which adding a port fails, in their order, and otherwise the listening port at the end of the table with the identity of the instance |
| PtpInstance.ExecuteKeepsSound | src/ravennakit/ptp/ptp_instance.cpp:298-317 | a decision event keeps the instance sound and changes ports only in Erbest, list and state |
| PtpRuns.StepKeepsSound | src/ravennakit/ptp/ptp_port.cpp:481-527 | every event keeps the instance sound |
| PtpRuns.RunsAreSound | src/ravennakit/ptp/ptp_port.cpp:96-156 | in every run no port is master, pre-master or passive, every Erbest is qualified (fewer than 255 steps, another clock) with its source in the list, and port numbers are distinct |
| PtpRuns.AssertsHold | src/ravennakit/ptp/ptp_port.cpp:672-684 | in every run the assertions on entry to the calculation of Erbest hold |
| PtpRuns.DecisionAnchors | src/ravennakit/ptp/ptp_port.cpp:96-156 | from a state in which every port that does not listen has an Erbest a decision is defined, and it leads to such a state exactly when the own set does not beat Ebest or every port has an Erbest |
| PtpRuns.SafeRunsDefined | src/ravennakit/ptp/ptp_port.cpp:96-101 | a run of such decisions never reaches the undefined dereference, and every slave or uncalibrated port has an Erbest throughout |
| PtpRuns.TameRunsSafe | src/ravennakit/ptp/ptp_port.cpp:96-156 | that is so whenever no message that reaches a port is beaten by the own data set |
| PtpRuns.OnePortRunsSafe | src/ravennakit/ptp/ptp_port.cpp:96-156 | and whenever there is never more than one port, whatever is heard |
| PtpBrokenRun.DereferenceCanBeUndefined | src/ravennakit/ptp/ptp_port.cpp:96-101 | a run of seven events after which the value of an empty optional is asked for |
| PtpRuns.ErbestHeardThrice | src/ravennakit/ptp/ptp_port.cpp:686-723 | in every run an Erbest comes from a source of which the port was sent at least three announce messages |
| PtpRuns.AdoptedIsRecent | src/ravennakit/ptp/ptp_port.cpp:699-703 | a new Erbest was heard at least twice within its window, last at most two intervals ago |
| PtpRuns.ErbestAdvances | src/ravennakit/ptp/ptp_port.cpp:511-523 | over every event, while a port is slave or uncalibrated and the source stays, Erbest only moves to newer sequence numbers |
| PtpRuns.TimeoutExpires | src/ravennakit/ptp/ptp_port.cpp:237-246 | after a timeout the port listens without an Erbest and nothing else has changed |
| PtpRuns.UnqualifiedChangesNothing | src/ravennakit/ptp/ptp_port.cpp:481-500 | a message of the own clock, from 255 steps or more, or for no port changes nothing |
| PtpRuns.NewerMessageTaken | src/ravennakit/ptp/ptp_port.cpp:511-523 | a newer message of the source that a port follows becomes its Erbest, unless one of another source that compares better than it does |
| PtpRuns.HeardIsRecorded | src/ravennakit/ptp/ptp_port.cpp:500-527 | after a message the list of its port holds exactly the recorded entries that survive the purge with the new Erbest; a following port does not record its parent |
| PtpRuns.TickAges | src/ravennakit/ptp/ptp_port.cpp:340-342 | a tick drops exactly the entries that do not survive and makes every other one interval older, its count cut to what is left of a window of four |
| PtpPortTable.UpdateLeavesWanted | src/ravennakit/ptp/ptp_instance.cpp:145-180 | a successful update_ports leaves exactly the numbers i + 1 of specified addresses, each port at its address, old ports with the state they had, and number_ports equal to the size of the table; success or not, the instance stays sound and nothing but the table and the clock identity changes; 65535 addresses or more change nothing |
| PtpPortTable.UpdateSucceedsIff | src/ravennakit/ptp/ptp_instance.cpp:145-180 | from every sound state it succeeds exactly with fewer than 65535 addresses, an interface for every new port and, while the clock identity is not set, a hardware address with a non-zero identity for the first specified address, if there is any |
| PtpPortTable.FailedUpdateStops | src/ravennakit/ptp/ptp_instance.cpp:145-180 | one that fails for want of a port leaves the ports of the addresses before it as wanted and all others as they were |
| PtpPortTable.NamedPut | src/ravennakit/ptp/ptp_instance.cpp:134-143 | adding or updating one port touches no other and nothing but the table and the clock identity |
| PtpPortTable.NamedRemove | src/ravennakit/ptp/ptp_instance.cpp:191-209 | removing a number removes that port and changes nothing else |
| PtpPortTable.Pigeonhole | src/ravennakit/ptp/ptp_instance.cpp:145-180 | distinct numbers from 1 to n are at most n ports |
| PtpObjects.InstanceObject.SetRecommendedState | src/ravennakit/ptp/ptp_instance.cpp:237-296 | parent data set and steps removed after each code |
| PtpObjects.InstanceObject.DetermineEbest | src/ravennakit/ptp/ptp_port.cpp:287-334 | the loop over the ports computes the specified ports and Ebest |
| PtpObjects.InstanceObject.ApplyStateDecision | src/ravennakit/ptp/ptp_port.cpp:96-123 | one port is decided as specified |
| PtpObjects.InstanceObject.ExecuteStateDecisionEvent | src/ravennakit/ptp/ptp_instance.cpp:298-317 | the event as specified |
| PtpObjects.InstanceObject.HandleAnnounceMessage | src/ravennakit/ptp/ptp_port.cpp:481-527 | list, Erbest, parent and the decision that follows |
| PtpObjects.InstanceObject.AnnounceReceiptTimeoutExpires | src/ravennakit/ptp/ptp_port.cpp:237-246 | Erbest is dropped and the port listens |
| PtpObjects.InstanceObject.StateDecisionTimer | src/ravennakit/ptp/ptp_instance.cpp:449-462 | the decision, then all entries one interval older |
| PtpObjects.InstanceObject.AddPort | src/ravennakit/ptp/ptp_instance.cpp:79-131 | the new port, or the error and no change |
| PtpObjects.InstanceObject.AddOrUpdatePort | src/ravennakit/ptp/ptp_instance.cpp:134-143 | an existing port is moved, a new one added |
| PtpObjects.InstanceObject.RemovePort | src/ravennakit/ptp/ptp_instance.cpp:191-209 | the port is removed and counted out; the answer is whether it was there |
| PtpObjects.InstanceObject.UpdatePorts | src/ravennakit/ptp/ptp_instance.cpp:145-180 | both loops compute the specified table and error |
| StringBuffer.FirstLine | include/ravennakit/core/containers/string_buffer.hpp:128-137 | cutting a text after its first newline cuts off its first line |
| StringBuffer.ReadTakesFirst | include/ravennakit/core/containers/string_buffer.hpp:123-141 | reading a line takes the first line of what is pending, and fails exactly without a newline |
| StringBuffer.ReadAllIsLines | include/ravennakit/core/string_parser.hpp:200-216 | reading a whole text line by line yields its lines |
| StringBuffer.RawLineIsRead | include/ravennakit/core/containers/string_buffer.hpp:123-141 | the first complete line of what is pending, with its line end, is what a successful line read returns and takes, and the line end is LF alone only if the line does not end in CR; without one nothing is returned and nothing taken |
| StringBuffer.OperationConserves | include/ravennakit/core/containers/string_buffer.hpp:95-141 | what a call hands out, its line end included, and what it leaves is what was pending |
| StringBuffer.BytesConserved | include/ravennakit/core/containers/string_buffer.hpp:55-160 | after every run of writes, line reads and byte reads, the bytes that the results account for, one after the other, and what is pending are what was written; each byte read accounts for the string returned, each line read for its line and line end, and a failing one for nothing |
| StringBuffer.ChunksDoNotMatter | include/ravennakit/core/containers/string_buffer.hpp:55-160 | for every way of cutting a stream into writes with line reads in between, lines returned and lines pending are the lines of the whole stream |
| StringBuffer.DrainedIsEverything | include/ravennakit/core/containers/string_buffer.hpp:123-160 | when reading stops for want of a newline, exactly the lines the parser reads from the whole stream were returned |
| StringBuffer.LinesComeBack | include/ravennakit/core/string_parser.hpp:200-216 | from a text made of lines, each with CR LF or with LF, exactly those lines are read |
| StringBuffer.ChunkedLinesComeBack | include/ravennakit/core/containers/string_buffer.hpp:123-160 | the same for every way of writing that text in chunks with line reads in between; a buffer without a complete line has returned them all and is empty |
| StringBuffer.StringBuffer.Prepare | include/ravennakit/core/containers/string_buffer.hpp:55-58 | room is made and what is available stays |
| StringBuffer.StringBuffer.Commit | include/ravennakit/core/containers/string_buffer.hpp:64-67 | the committed bytes become available |
| StringBuffer.StringBuffer.Consume | include/ravennakit/core/containers/string_buffer.hpp:95-102 | the bytes go from the front, also when the positions are reset |
| StringBuffer.StringBuffer.Read | include/ravennakit/core/containers/string_buffer.hpp:111-117 | what is returned and what stays is what was there, and no more than asked for is returned |
| StringBuffer.StringBuffer.ReadUntilNewline | include/ravennakit/core/containers/string_buffer.hpp:123-141 | the same specification as the parser |
| StringBuffer.StringBuffer.StartsWith | include/ravennakit/core/containers/string_buffer.hpp:148-150 | a prefix of the available data |
| StringBuffer.StringBuffer.Write | include/ravennakit/core/containers/string_buffer.hpp:156-160 | the text is appended to what is available |
| StringBuffer.StringBuffer.Clear | include/ravennakit/core/containers/string_buffer.hpp:165-169 | nothing is available |
| Bytes.BeOfToBe | include/ravennakit/core/byte_order.hpp:212-248 | the big-endian bytes of a number have its value |
| Bytes.ToBeOfBe | include/ravennakit/core/byte_order.hpp:212-248 | the value of big-endian bytes has those bytes |
| Bytes.FirstByteCounts | include/ravennakit/core/byte_order.hpp:212-248 | the first byte is the most significant |
| Bytes.SwapTwice | include/ravennakit/core/byte_order.hpp:110-125 | swapping the bytes of a value twice gives the value |
| Bytes.BigEndianOnAnyHost | include/ravennakit/core/byte_order.hpp:170-248 | on hosts of either byte order reading and writing big-endian mean the same bytes, and reading undoes writing |
| Bytes.NativeIsBigIff | include/ravennakit/core/byte_order.hpp:200-215 | read in native order a number comes out right exactly on a big-endian host or when its bytes read the same both ways |
| Bytes.ByteBuffer.Write | include/ravennakit/core/containers/byte_buffer.hpp:74-76 | the bytes are appended |
| Bytes.ByteBuffer.WriteBigEndian | include/ravennakit/core/containers/byte_buffer.hpp:96-98 | the big-endian bytes are appended |
| Rtp.FixedRoundTrip | src/ravennakit/rtp/rtp_packet_view.cpp:51-125 | all fields of the fixed header come back, whatever follows it |
| Rtp.PacketRoundTrip | src/ravennakit/rtp/rtp_packet_view.cpp:35-178 | the view of any complete packet validates, header length plus payload size is the packet size, and all sources, the extension data and the payload come back (sections 5.1 and 5.3.1 of RFC 3550) |
| Rtp.ProfileRoundTripIff | src/ravennakit/rtp/rtp_packet_view.cpp:134-143 | the profile of the extension is copied in native order: it comes back exactly on a big-endian host or when its bytes are equal |
| Rtp.FieldsMakeUp | src/ravennakit/rtp/rtp_packet_view.cpp:51-125 | whatever the first twelve bytes are, the fields that the view shows make them up |
| Rtp.ShortReadsZero | src/ravennakit/rtp/rtp_packet_view.cpp:51-125 | a field that is not all there reads as zero |
| Rtp.CutIsInvalid | src/ravennakit/rtp/rtp_packet_view.cpp:35-49 | a packet cut off within its header does not validate and shows no payload; cut off later it validates and shows what is left of the payload |
| Rtp.OtherVersionInvalid | src/ravennakit/rtp/rtp_packet_view.cpp:35-49 | nor does one of another version than 2 |
| Rtp.EncodedRoundTrip | src/ravennakit/rtp/rtp_packet.cpp:53-77 | an encoded packet yields a view with the same sequence number, timestamp, SSRC, low seven bits of the payload type, and payload |
| Rtp.Packet.Encode | src/ravennakit/rtp/rtp_packet.cpp:53-77 | the packet is appended to the buffer, on hosts of either byte order |
| Rtp.Packet.IncSequenceNumber | src/ravennakit/rtp/rtp_packet.cpp:35-38 | the sequence number wraps at 16 bits |
| Rtp.Packet.IncTimestamp | src/ravennakit/rtp/rtp_packet.cpp:44-47 | the timestamp wraps at 32 bits |
| Rtp.EncodeStream | src/ravennakit/rtp/detail/rtp_audio_sender.cpp:100-190 | fields set once and moved on after each packet: the k-th packet validates and shows its payload, sequence number first + k modulo 2^16 and timestamp plus k times the packet time modulo 2^32, for any number of packets |
| Rtcp.HeaderFields | src/ravennakit/rtp/rtcp_packet_view.cpp:62-119 | version, report count, type, length and SSRC come back, whatever follows |
| Rtcp.PacketParts | src/ravennakit/rtp/rtcp_packet_view.cpp:104-213 | header, sender info, report blocks and extension partition the 4 * length() bytes of a packet, whatever follows; no block beyond the count is shown |
| Rtcp.SenderFields | src/ravennakit/rtp/rtcp_packet_view.cpp:121-171 | the sender info is read from its places in a sender report and is zero in a receiver report |
| Rtcp.FieldsMakeUp | src/ravennakit/rtp/rtcp_packet_view.cpp:62-119 | whatever the first eight bytes are, the fields that the view shows make them up, but for the padding bit; of 256 packet types five are known |
| Rtcp.ShortReadsZero | src/ravennakit/rtp/rtcp_packet_view.cpp:62-224 | a field that is not all there reads as zero, and a block or a packet that is not as nothing |
| Rtcp.CutIsInvalid | src/ravennakit/rtp/rtcp_packet_view.cpp:40-60 | a packet cut off within its header or its sender info does not validate |
| Rtcp.WalkVisits | src/ravennakit/rtp/rtcp_packet_view.cpp:215-224 | from a concatenation of well-formed reports iterating get_next_packet visits exactly those, in order, and then stops for good |
| Rtcp.WalkShows | src/ravennakit/rtp/rtcp_packet_view.cpp:215-224 | the k-th view starts with the k-th packet |
| Rtcp.StuckIff | src/ravennakit/rtp/rtcp_packet_view.cpp:104-111 | on any bytes the walk fails to move on exactly at fewer than four bytes or a length field of 0xFFFF; otherwise the next view is shorter |
| Blocks.SwapBytes | include/ravennakit/core/byte_order.hpp:75-84 | the bytes are reversed in place, the rest is untouched |
| Blocks.SwapBytesStrided | include/ravennakit/core/byte_order.hpp:92-103 | every stride is reversed in place, the rest is untouched |
| Blocks.SwapBlocksTwice | include/ravennakit/core/byte_order.hpp:92-103 | swapping twice gives the original bytes |
| AudioData.SourceInverse | include/ravennakit/core/audio/audio_data.hpp:438-491 | the index maps of interleaving and de-interleaving are inverse permutations of the samples |
| AudioData.TransposedAt | include/ravennakit/core/audio/audio_data.hpp:452-456 | the sample of a frame and a channel moves to that channel and frame, and back |
| AudioData.TransposedBack | include/ravennakit/core/audio/audio_data.hpp:438-491 | interleaving what was de-interleaved, or the other way round, gives the original bytes |
| AudioData.DeInterleave | include/ravennakit/core/audio/audio_data.hpp:438-458 | every sample of every complete frame ends up at its place, the rest is untouched |
| AudioData.Interleave | include/ravennakit/core/audio/audio_data.hpp:471-491 | the same for the way back |
| AudioData.JoinSplit | include/ravennakit/core/audio/audio_data.hpp:361-415 | the interleaved stream of the channels of a stream is the stream |
| AudioData.SplitJoin | include/ravennakit/core/audio/audio_data.hpp:361-415 | the channels of the interleaved stream of channels are the channels |
| AudioData.JoinSplitPlanar | include/ravennakit/core/audio/audio_data.hpp:370-425 | the same for streams of one channel after the other |
| AudioData.SplitJoinPlanar | include/ravennakit/core/audio/audio_data.hpp:370-425 | and the other way round |
| AudioData.StreamRoundTrip | include/ravennakit/core/audio/audio_data.hpp:354-428 | converting to channels and back gives the stream, for sample conversions that can be undone |
| AudioData.ChannelsRoundTrip | include/ravennakit/core/audio/audio_data.hpp:354-428 | converting channels to a stream and back gives the channels |
| AudioData.ToChannels | include/ravennakit/core/audio/audio_data.hpp:354-382 | the loop over a stream of either kind, with start frames, fills the channels as specified and nothing else |
| AudioData.ChannelsToInterleaved | include/ravennakit/core/audio/audio_data.hpp:400-415 | the nested loops fill the stream as specified and nothing else |
| AudioData.ChannelsToPlanar | include/ravennakit/core/audio/audio_data.hpp:416-425 | the same for a stream of one channel after the other |

## Left out

- Sockets, timers, logging, service discovery, HTTP, NMOS and JSON: input and output or plumbing.
- Memory orders weaker than sequential consistency in the lock, and starvation: a reader or writer may
  lose its race up to its bound.
- PTP messages other than announce messages, their decoding, and the filter on domain and alternate
  masters in front of them; time properties and subscribers; the delay measurement.
- A PTP instance that is not slave-only: the original has no master state.
- Rounding of floating-point numbers, and sample conversions between formats: a conversion of one sample
  is a function parameter of the audio loops.
- The port objects of the instance are created by it and never shared, so what others could do to them
  through an alias is not modelled; view types are values, so their lifetimes are not modelled either.
- The whole session description: only its media line is modelled.
- The conversion of a non-interleaved to an interleaved buffer in `audio_data.hpp` lines 319-326, which
  is right only for as many frames as channels.
- Rtcp.View.ProfileExtension: asked only of packets that are at least as long as their own reports; the
  original subtracts unsigned sizes otherwise.
- Rtp.Validate: asked only of buffers that hold the four bytes of an announced extension header.
- StringParser.Parser.ReadInt: models the unsigned types, the only ones that the URI and the media line
  read; signed ones would also accept a minus sign.
- `FifoBuffer` and `AudioFifoBuffer` are not part of this model.
