# Verified models of the time libraries

This project models the parts of the repository whose correctness is hard to see by reading, and proves
what they promise for every input and every run. Files follow the components:

- `ServoFilter.dfy`, `Servo.dfy`, `ServoRuns.dfy`, `ServoLaws.dfy`, `Ring.dfy`: the PI servo with its outlier
  filter, as objects updated in place, the step functions they are proved to follow, all runs of calls, and
  what single calls answer.
- `PtpTlv.dfy`, `PtpBuffer.dfy`, `PtpPacket.dfy`: the IEEE 1588-2019 codec for Signaling, Announce and
  Sync/Delay_Req messages with their TLV suffix. `UnicastTable.dfy`: ptp4l's unicast master table.
- `Daemon.dfy`, `TrueTime.dfy`, `ShmProtocol.dfy`, `Smear.dfy`: fbclock from the daemon's rings through
  shared memory to the client's interval in TAI or UTC. `Fbclock.dfy` joins them.
- `TZif.dfy`: the leap-second reader and writer for section 3 of RFC 8536.
- `NtpTime.dfy`, `Measurements.dfy`: NTP timestamps and offsets (sections 6 and 8 of RFC 5905) and their
  PTP counterpart.
- `Tester.dfy`: the linearizability tester as a protocol over an unreliable network.
- `Crc16.dfy`, `Xmodem.dfy`, `CertBundle.dfy`: XMODEM CRC-16 and block transfer, and the comparison of
  certificate bundles.
- `Words.dfy`: fixed-width integers, big-endian bytes, and writes into a buffer.

Where the source works in place, methods and classes do the same, and each is tied by its `ensures` to a
function of the old state. The theorems are about those functions. `float64` is `real`.

## What the proofs found

- A path trace is read back unchanged only when 1 to 8 bytes follow it. With none the last identity is
  lost, with more than 8 an extra one is made up. The two bytes that `Bytes` appends make the last TLV work.
- The length field of an alternate time offset must be at least 20 to be decoded, so display names of
  fewer than three bytes are written but refused on reading. Names of up to 255 bytes all survive.
- IPv4-mapped IPv6 addresses in the unicast master table come back as four bytes, everything else unchanged.
- The smear steps 1 ns every 65 us, which takes 65000 s for one second. The daemon publishes a window of
  62500 s, so UTC falls back by 38461538 ns right after its end. The published constants disagree; the
  condition on leap and window is exact, and a window that meets it is called gentle below.
- The client's UTC wraps to just below 2^64 for instants before the offset, and takes negative PHC times for late ones.
- The checksum in shared memory covers ingress time, error bound and multiplier but not the four smearing
  fields: a load may match and still mix the smearing fields of two stores, or of the first store and the
  memory before it. Matching loads are whole exactly when no store ever changes these fields.
- In UTC the earlier end of a client's interval can fall back by 1 ns, when a tick of the drift meets a tick
  of the smear.
- While the offset mean is rebuilt, int64 overflows for the single offset -2^63; the mean is right all the same.
- An XMODEM read that delivers nothing leaves the checksum in the buffer, and counts as an acknowledgement
  exactly when its high byte is ACK, as for 1023 zero bytes and 0x33.
- `Bytes` allocates 50 bytes for Sync and Delay_Req and 508 for the others, and panics on packets that need
  more: on any TLVs of more than six bytes in a Sync or Delay_Req. An alternate time offset at the end of a
  buffer that is too small is cut short without an error by `MarshalBinaryTo`.
- The decoder of the unicast master table panics on some inputs of 65562 bytes and more, and on no shorter one.
- The linearizability tester can finish a run with the answer to a request of an earlier run, before it
  has sent anything. This is possible exactly when some request is still unanswered at the start.
- `Equals` compares correctly even when both bundles share one list.

## Model

| member | source | states |
|---|---|---|
| ServoRuns.FrequenciesBounded | servo/pi.go:148-262 | Over every sequence of Sample, IsSpike, Unlock, SyncInterval and UnsetFirstUpdate calls from an in-range servo, drift, lastFreq, the mean frequency handed out and every returned frequency stay in [-maxFreq, maxFreq] |
| ServoRuns.StepKeeps | servo/pi.go:148-284 | Each single call keeps that range and keeps the gains nonnegative |
| ServoRuns.DriftBetween | servo/pi.go:243-252 | The integral term never carries the drift past the unclamped output, for either sign of the offset |
| ServoRuns.SpikesEnd | servo/pi.go:148-170 | Spikes in a row use up the patience left one by one; the last unit takes the servo back to count 0 |
| ServoRuns.SpikesBounded | servo/pi.go:148-170 | In any run, a block of calls without a sample reports at most maxSkipCount + 1 spikes, whatever else is called in between, and that many only by taking the servo back to count 0 |
| ServoRuns.BudgetRun | servo/pi.go:148-170 | Over any such block the reported spikes are paid from the budget that the servo had before it |
| ServoRuns.CountingStays | servo/pi.go:148-170 | Over every run the skip count stays nonnegative |
| ServoRuns.OneSpike | servo/pi.go:148-170 | A reported spike uses up one unit of patience or resets the servo, and happens only to a locked servo |
| ServoRuns.LockedRestoresPatience | servo/pi.go:254-259 | A locked sample makes maxSkipCount + 1 spikes possible again |
| ServoRuns.JumpsSeparated | servo/pi.go:182-253 | Between two Jump results of a run there is an Init result |
| ServoRuns.FindRestart | servo/pi.go:182-186 | A run that comes back to the second sample passed a Sample call that answered Init |
| ServoRuns.StrictTimestamps | servo/pi.go:182-253 | Every Jump or Locked result rests on two samples with strictly increasing local timestamps and no reset since the first of them |
| ServoRuns.Origins | servo/pi.go:182-253 | In every reachable state the stored timestamps are those of earlier samples since the last reset |
| Servo.PiServo.Sample | servo/pi.go:173-262 | The object makes exactly the step the run theorems are about: state, frequency and status |
| Servo.PiServo.Adjust | servo/pi.go:182-253 | The three-state switch, with the filter reset of a too large locked offset |
| Servo.PiServo.AdjustSecond | servo/pi.go:187-225 | The frequency estimate of the second sample: out of order, too early, clamped, stepped or locked |
| Servo.PiServo.IsSpike | servo/pi.go:148-170 | Skip and reset policy, with the mean frequency taken over before the filter is cleared |
| Servo.PiServo.Unlock | servo/pi.go:404-409 | Back to count 0 with fast gains and an empty filter; frequency and drift are kept |
| Servo.PiServo.ResyncInterval | servo/pi.go:264-277 | Gains from scale and interval, capped; untouched for interval 0 |
| Servo.PiServo.SyncInterval | servo/pi.go:280-283 | The new interval, and the gains that follow from it |
| Servo.PiServo.AddFilter | servo/pi.go:453-461 | An empty filter whose mean frequency is the last frequency |
| Servo.PiServo.UnsetFirstUpdate | servo/pi.go:138-140 | Only the flag changes |
| ServoLaws.TwoSamplesAre | servo/pi.go:182-225 | Two samples in a row from the start give the one frequency that explains how the offset grew, cut to the range |
| ServoLaws.SecondSampleIs | servo/pi.go:187-225 | The frequency of a second sample is the only solution of (f - drift) * elapsed = (10^9 - drift) * growth, cut to the range; drift and lastFreq take it over |
| ServoLaws.SecondSampleDirection | servo/pi.go:207-215 | A growing offset never lowers the frequency and a falling one never raises it |
| ServoLaws.SecondSampleExample | servo/pi.go:187-225 | 1000 ns in one second are +1000 ppb |
| ServoLaws.SecondSampleIff | servo/pi.go:187-205 | The servo leaves Init exactly when the timestamp grew and 1.001 times the elapsed time reaches 16 ms per unit of ki or 1000 s |
| ServoLaws.JumpIff | servo/pi.go:217-223 | The clock is stepped exactly when the offset exceeds a threshold that is set, the first one only on a first update |
| ServoLaws.RestartIff | servo/pi.go:226-242 | A locked servo starts over exactly when the step threshold is set and exceeded, and keeps frequency and drift |
| ServoLaws.LockedIs | servo/pi.go:243-254 | A locked answer is drift + (kp + ki) * offset cut to the range; the drift takes the integral part, and only of answers that are not cut |
| ServoLaws.LockedMonotone | servo/pi.go:243-252 | A larger offset never gives a lower frequency |
| ServoLaws.GainsAre | servo/pi.go:264-277 | Each gain is the smaller of the tuned one and the one that its norm allows at the interval |
| ServoLaws.SyncIntervalIs | servo/pi.go:280-283 | A new interval changes the gains at once and nothing else |
| ServoLaws.UnlockIs | servo/pi.go:404-409 | Unlock brings the gains of scales 0.7 and 0.3 and keeps drift, last and mean frequency |
| ServoLaws.SpikeIff | servo/pi.go:148-170 | Exactly which offsets are spikes: none without a filter or before lock, all once patience is used up, and with a full window those above both thresholds |
| ServoLaws.SpikeMonotone | servo/pi.go:313-318 | An offset at least as large as a spike is a spike |
| ServoLaws.NeverSpikes | servo/pi.go:313-318 | With patience left neither 0 nor -2^63 is a spike |
| ServoLaws.SpikeHolds | servo/pi.go:148-170 | Every spike applies the mean frequency; a reset clears drift and samples but not the mean, a skip changes neither |
| ServoLaws.ResetGains | servo/pi.go:158-168 | A reset brings back the fast gains |
| ServoLaws.SteadyIff | servo/pi.go:366-367 | The mean frequency takes in exactly the samples whose offset is within the range |
| ServoLaws.LearnsIff | servo/pi.go:254-259 | The filter learns offset and answer of locked samples only, which also end the count of skips |
| ServoLaws.ClearedMean | servo/pi.go:412-425 | Clearing the filter keeps its mean frequency |
| ServoFilter.PiServoFilter.Sample | servo/pi.go:330-401 | The running means, updated in place, equal the means recomputed from the last ringSize samples |
| ServoFilter.PiServoFilter.UpdateOffsets | servo/pi.go:331-348 | After every sample offsetMean, computed in wrapping int64 arithmetic, is exactly the sum of the truncated shares of the last min(n, ringSize) offsets |
| ServoFilter.PiServoFilter.UpdateFreqs | servo/pi.go:367-392 | Once the ring is full freqMean is the exact mean of the last ringSize accepted frequencies, and before it is the mean carried over |
| ServoFilter.PiServoFilter.IsSpike | servo/pi.go:298-320 | The verdict depends on the abstract filter only; reset has priority |
| ServoFilter.PiServoFilter.Reset | servo/pi.go:412-425 | Everything is forgotten but the mean frequency |
| ServoFilter.OffsetMeanError | servo/pi.go:330-348 | The running offset mean of c samples is within c - 1 ns of their true mean |
| ServoFilter.TruncSumFits | servo/pi.go:330-348 | The truncated mean of a window is an int64 |
| ServoFilter.PartialSumsFit | servo/pi.go:337-348 | All partial sums of the loop that rebuilds the mean fit int64 if and only if the window is not the single offset -2^63 |
| ServoFilter.SumTruncated | servo/pi.go:339-348 | The int64 loop holds its partial sum modulo 2^64 at every turn, and adding the newest share gives the truncated mean modulo 2^64 |
| ServoFilter.FreqMeanBounded | servo/pi.go:367-392 | The mean frequency stays in any symmetric range that holds the accepted frequencies and the held mean |
| ServoFilter.OffsetMeanFull | servo/pi.go:331-348 | Taking out the oldest share and adding the newest one is recomputation, in a full window |
| ServoFilter.FreqMeanPush | servo/pi.go:367-392 | The same for frequencies, and the first computation when the ring becomes full |
| Rings.Ring.Push | fbclock/daemon/state.go:70-75 | Writing the current slot and advancing is appending to the history of pushes |
| Rings.Ring.Visit | servo/pi.go:340-346 | A full turn visits exactly the last R pushes, oldest first |
| Rings.Ring.Take | fbclock/daemon/state.go:77-90 | For n up to the ring size: the newest min(n, pushed) elements, newest first; a longer walk goes round again |
| PtpPacket.PacketRoundTrip | ptp/protocol/protocol.go:182-292 | For every packet with consistent lengths and any number of TLVs, decoding the bytes on the wire gives the packet back if and only if it survives the wire |
| PtpPacket.UsualSuffixSurvives | ptp/protocol/tlvs.go:299-374 | Path traces only in last place and display names of at least three bytes are sufficient |
| PtpPacket.HeaderRoundTrip | ptp/protocol/protocol.go:86-136 | All fields of the header are read back, signed ones included |
| PtpPacket.FixedRoundTrip | ptp/protocol/protocol.go:182-292 | Header and fixed body of all three messages are read back |
| PtpPacket.ShortBodySlices | ptp/protocol/protocol.go:257-268 | The fields of Signaling, Sync and Delay_Req at their byte positions |
| PtpPacket.AnnounceSlices | ptp/protocol/protocol.go:182-204 | The fields of an Announce at their byte positions |
| PtpPacket.HeaderSlices | ptp/protocol/protocol.go:121-136 | The first half of the header at its byte positions |
| PtpPacket.HeaderSlicesEnd | ptp/protocol/protocol.go:121-136 | The second half of the header at its byte positions |
| PtpPacket.ReadableOnly | ptp/protocol/unicast.go:65-92 | Only messages of 48, 64 or 44 bytes whose length field fits are read, and Signaling only with message type 0xC and a TLV |
| PtpPacket.Bytes | ptp/protocol/protocol.go:433-458 | For every packet: its message and two zero bytes, a refusal of Signaling without TLVs or of a text over 255 bytes, or a panic, exactly when it needs more than the buffer of 50 or 508 bytes |
| PtpPacket.BytesTo | ptp/protocol/protocol.go:433-442 | The wire form in the caller's buffer; a panic exactly when message or extra bytes do not fit, a message that was cut short included |
| PtpPacket.RoomForTLVs | ptp/protocol/protocol.go:257-275 | The buffers have room for 6 bytes of TLVs in a Sync or Delay_Req, 444 in an Announce and 464 in a Signaling message, and one byte more panics |
| PtpPacket.MarshalPacketTo | ptp/protocol/protocol.go:182-204 | Into a buffer of any size: a refusal, a panic, or exactly the message's bytes, as far as there is room for them |
| PtpPacket.MarshalHeader | ptp/protocol/protocol.go:121-136 | Exactly the first 34 bytes of the buffer are overwritten with the header |
| PtpPacket.UnmarshalPacket | ptp/protocol/unicast.go:65-92 | Total on every buffer, with every index in bounds |
| PtpTlv.ReadWritten | ptp/protocol/tlvs.go:71-161 | A written TLV list is read back unchanged if and only if each TLV is recoverable given the bytes after it |
| PtpTlv.ReadStep | ptp/protocol/tlvs.go:96-161 | One turn of the reader advances by exactly the TLV that was written there |
| PtpTlv.TlvRoundTrip | ptp/protocol/tlvs.go:174-405 | Each of the seven TLVs comes back if and only if it is recoverable |
| PtpTlv.WireForm | ptp/protocol/types.go:92-105 | Each TLV in absolute bytes: types 00 04 to 00 09 and 20 07, its length, and every field at its position |
| PtpTlv.AcceptedIff | ptp/protocol/tlvs.go:96-161 | Exactly which bytes are accepted as a TLV, by type, length field, available bytes and text |
| PtpTlv.DecodedAgain | ptp/protocol/tlvs.go:174-282 | On every accepted input, the five TLVs of fixed size lose nothing: written again they give the same bytes |
| PtpTlv.TextWire | ptp/protocol/types.go:609-629 | Length byte, text, and a zero byte after texts of odd length |
| PtpTlv.CutShortIff | ptp/protocol/tlvs.go:340-357 | The only TLV that is cut short without an error is an alternate time offset whose integers still fit |
| PtpTlv.PathTraceRoundTrip | ptp/protocol/tlvs.go:299-327 | A path trace comes back exactly when it is not empty and 1 to 8 bytes follow; an empty one is the only one refused |
| PtpTlv.PathCountWritten | ptp/protocol/tlvs.go:310-327 | The exact number of identities read, for any number of bytes that follow |
| PtpTlv.PathCountFits | ptp/protocol/tlvs.go:310-327 | The path trace loop never reads past the buffer |
| PtpTlv.AltTimeOffsetRoundTrip | ptp/protocol/tlvs.go:340-374 | Accepted, and then unchanged, exactly for display names of at least three bytes |
| PtpTlv.TextRoundTrip | ptp/protocol/types.go:586-629 | Every text of 1 to 255 bytes comes back, its padding included |
| PtpBuffer.ReadTLVs | ptp/protocol/tlvs.go:96-161 | Total: terminates on every buffer without reading past it, and computes the list the round trips are about |
| PtpBuffer.WriteTLVs | ptp/protocol/tlvs.go:71-92 | All TLVs back to back, as far as there is room, and nothing else changed; or the first refusal or panic |
| PtpTlv.StoreAllIff | ptp/protocol/tlvs.go:71-92 | For every list and every buffer: written or refused exactly when it reaches no further than the buffer, and otherwise a panic or a list that is cut short |
| PtpBuffer.MarshalTo | ptp/protocol/tlvs.go:174-394 | Each TLV overwrites exactly its own bytes of the buffer, panics, or is cut short |
| PtpBuffer.MarshalAltTimeOffset | ptp/protocol/tlvs.go:340-357 | Stores by index need their bytes, while the last jump and the padded name are copied as far as there is room; together they are one encoding |
| PtpBuffer.UnmarshalPath | ptp/protocol/tlvs.go:310-327 | The loop stays in bounds and reads the counted identities in order |
| UnicastTable.ExactRoundTrip | ptp/protocol/ptp4l.go:216-330 | A table of any mix of address sizes comes back unchanged if and only if no address is IPv4-mapped |
| UnicastTable.TableRoundTrip | ptp/protocol/management_tlvs.go:146-168 | A declared size up to the number of entries gives that many of them; a larger one is an error |
| UnicastTable.WalkEntries | ptp/protocol/management_tlvs.go:157-165 | The moving offset lands on the start of every entry |
| UnicastTable.EntryRoundTrip | ptp/protocol/ptp4l.go:216-296 | An entry comes back with its address in canonical form, and takes 22 bytes plus that address |
| UnicastTable.AddressRoundTrip | ptp/protocol/types.go:704-745 | An address comes back in the shortest form of the same address |
| UnicastTable.AddressWire | ptp/protocol/ptp4l.go:273-296 | Addresses in absolute bytes: 00 01 00 04 before four bytes, 00 02 00 10 before sixteen |
| UnicastTable.MappedIs | ptp/protocol/ptp4l.go:273-280 | The addresses that are shortened begin with ten zero bytes and FF FF |
| UnicastTable.EntryAcceptedIff | ptp/protocol/ptp4l.go:216-246 | Exactly which bytes are accepted as an entry |
| UnicastTable.FieldSlices | ptp/protocol/ptp4l.go:216-262 | The fields of an entry at their byte positions, a selected master as 1 |
| UnicastTable.DecodeTable | ptp/protocol/management_tlvs.go:146-168 | The loop follows, on every byte string, the walk the round trips are about; a panic is an outcome of its own |
| UnicastTable.PanicIff | ptp/protocol/types.go:704-716 | Some input of a given length makes the decoder panic if and only if the length is at least 65562 bytes |
| UnicastTable.NoPanic | ptp/protocol/types.go:704-716 | No shorter input does, wherever in the table the bad address stands |
| UnicastTable.EncodeTable | ptp/protocol/ptp4l.go:312-330 | The buffer receives head, size and all entries in order |
| Smear.WraparoundAgrees | fbclock/fbclock.c:282-298 | For all uint64 arguments and positive or negative multipliers the wrapping arithmetic is the signed smear modulo 2^64 |
| Smear.UtcAgrees | fbclock/fbclock.c:300-334 | For every int64 PHC time the result is UTC modulo 2^64, and UTC itself when that fits; a negative time is taken for one after the leap |
| Smear.OrderPreservingIff | fbclock/fbclock.c:282-298 | On unbounded integers, UTC never runs backwards if and only if the leap is at most one second and the window is long enough for it |
| Smear.OrderedIff | fbclock/fbclock.c:282-334 | The uint64 result for int64 PHC times never runs backwards from an instant on if and only if leap and window meet that condition and UTC is not negative at the instant |
| Smear.FixedOffsetOrdered | fbclock/fbclock.c:303-306 | Without leap data the result is in order exactly from 37 s on |
| Smear.BackwardSomewhere | fbclock/fbclock.c:282-334 | Any other window gives some later instant an earlier UTC, also when a negative leap passes 2^64 |
| Smear.UtcInRange | fbclock/fbclock.c:300-334 | From the offset before the leap on nothing wraps, for gentle windows and for any window of a leap forward by up to 65000 s |
| Smear.SmearLoss | fbclock/fbclock.c:282-298 | With a gentle window, or on one side of the end of any window of at most one second, UTC advances less than TAI by at most one nanosecond in 65000 and two more |
| Smear.SideLoss | fbclock/fbclock.c:282-298 | On one side of the end of any window of at most one second, the loss is one nanosecond in 65000, rounded up |
| Smear.DropAtEnd | fbclock/fbclock.c:282-298 | How far UTC falls in the first nanosecond after a window, which is no fall exactly when the window is gentle |
| Smear.StandsStillIff | fbclock/fbclock.c:282-298 | UTC stands still exactly at multiples of 65000 ns inside a window of +1 s and at a last step that fits exactly, and falls exactly at the end of a window that is not gentle |
| Smear.PositiveLeap | fbclock/fbclock.h:40-43 | For +1 s the condition is floor(window / 65000 ns) >= 10^9 - 1; 65000 s meets it and 62500 s does not |
| Smear.PublishedWindow | fbclock/daemon/daemon.go:149-172 | The window the daemon publishes is 62500 s long |
| Smear.PublishedStart | fbclock/daemon/daemon.go:149-172 | When the last leap second of the table takes effect at midnight UTC, the published offsets are 10 s more than the leap counts and the smear starts exactly when UTC is midnight |
| Smear.NothingPublished | fbclock/daemon/daemon.go:149-153 | With fewer than two leap seconds clients subtract 37 s |
| Smear.PublishedStepBack | fbclock/daemon/daemon.go:149-172 | For +1 s the uint64 UTC falls back by exactly 38461538 ns at the end of the published window and is ordered everywhere else |
| TrueTime.WindowBounds | fbclock/shmem.go:114-154 | For every accepted record the window lies above W + delay + h*s - s/65536 - 1 and not above W + delay + h*s |
| TrueTime.AcceptedIff | fbclock/shmem.go:114-154 | The client accepts a record if and only if neither field was saturated and neither bound nor ingress time is zero |
| TrueTime.TruthInside | fbclock/fbclock.c:197-272 | True time within the daemon's bound lies in the interval returned, whenever its ends are uint64 values, once the delay covers the quantisation |
| TrueTime.IntervalAdvances | fbclock/fbclock.c:211-236 | For one record both ends of the interval returned are monotone in PHC time, for every multiplier, as long as they are uint64 values |
| TrueTime.TaiEnds | fbclock/fbclock.c:211-236 | The ends returned are PHC time minus and plus the half width exactly when these are uint64 values |
| TrueTime.UtcIntervalAdvances | fbclock/fbclock.c:211-236 | In UTC, with a gentle window or on one side of the end of any window of at most one second, the later end is monotone; the earlier one falls back by at most 1 ns, and never over 3 ns or more |
| TrueTime.UtcIntervalDrops | fbclock/fbclock.c:211-236 | Across the end of such a window that is not gentle the later end falls by at most the drop of UTC and the earlier one by at most 1 ns more; at the last nanosecond a tick of the drift decides exactly |
| TrueTime.PublishedDrop | fbclock/daemon/daemon.go:149-172 | For the published window and +1 s that drop is 38461538 ns |
| TrueTime.StepBackIff | fbclock/fbclock.c:211-236 | From one nanosecond to the next the earlier end falls back exactly when UTC stands still where multiplier * elapsed passes a multiple of 65536 * 10^9, or at the end of a window that is not gentle |
| TrueTime.HoldoverExact | fbclock/fbclock.c:197-209 | The drift in whole nanoseconds is multiplier * elapsed divided by 65536 * 10^9 |
| TrueTime.StepBackHappens | fbclock/fbclock.c:211-236 | It does for a drift of 1 ns per second, 13 s after a sync at the start of a window |
| TrueTime.UtcEnds | fbclock/fbclock.c:211-236 | The UTC ends returned are the real ones exactly when these are uint64 values, for the published window too |
| TrueTime.HoldoverTicks | fbclock/fbclock.c:197-209 | Two ticks of the drift are more than 15258 ns apart |
| TrueTime.WidthFits | fbclock/fbclock.c:197-209 | No addition of the client wraps, so the computed window is the real one |
| TrueTime.SmallestInRange | fbclock/fbclock.c:238-272 | The delay used is nonnegative and no larger than any delay seen |
| TrueTime.Client.GetTime | fbclock/fbclock.c:238-272 | Which error is returned when, which delays are remembered, and the interval with the smallest delay over all calls |
| TrueTime.CalculateTime | fbclock/fbclock.c:211-236 | The interval around PHC time or UTC, or PHC in the past |
| ShmProtocol.MatchIsLastStore | fbclock/fbclock.c:63-100 | Over all interleavings of field copies, if the checksum tells apart the triples in play, a matching load holds the triple of the store last completed when the checksum was loaded |
| ShmProtocol.MatchIsWholeRecord | fbclock/fbclock.c:63-100 | It is the whole record if no store changes the smearing fields that the segment had at first |
| ShmProtocol.TornSmear | fbclock/fbclock.c:63-100 | For any checksum and any two stores that differ in a smearing field there is a run whose matching load mixes them |
| ShmProtocol.TornFirstStore | fbclock/fbclock.c:63-100 | A single store that changes a smearing field can be mixed with the initial memory |
| ShmProtocol.WholeIff | fbclock/fbclock.c:63-100 | For any set of records that may be stored, every matching load in every run is a whole record if and only if all of them have the smearing fields of the initial memory |
| ShmProtocol.QuietLoad | fbclock/fbclock.c:70-100 | A load between two stores matches and returns the whole record of the last one, for any checksum |
| Fbclock.ClientInterval | fbclock/fbclock.c:238-272 | Over every interleaving, a client whose load matched accepts the record as it was published, and its window is within quantisation of W + delay + h*s |
| Fbclock.ClientTruth | fbclock/fbclock.c:238-272 | True time within the published bound lies in the interval of such a client |
| Fbclock.ClientRecord | fbclock/fbclock.c:83-100 | When no store changes the smearing fields, such a client works on exactly the record of the last store, also in UTC |
| Fbclock.ClientUtc | fbclock/fbclock.c:211-236 | In UTC such a client's interval is the half width around the UTC of the daemon's leap data |
| Fbclock.LoadedCovered | fbclock/fbclock.c:63-100 | Such a load holds a proper record that differs from the published one in the smearing fields at most |
| ShmProtocol.StepKeeps | fbclock/fbclock.c:70-100 | Every field in memory or half loaded stems from some store, and a published checksum from the last completed one |
| ShmProtocol.RunKeeps | fbclock/fbclock.c:70-100 | The same over whole runs |
| Daemon.PublishIff | fbclock/daemon/daemon.go:299-338 | Over every run a record is published exactly when the point is sane and the formulas succeed on the newest windows, and it is computed from exactly those windows |
| Daemon.RefusedIff | fbclock/daemon/daemon.go:69-89 | Exactly the points with a zero field or an accuracy of 25 s or more are refused |
| Daemon.PublishSafety | fbclock/daemon/daemon.go:299-338 | No record before RingSize sane points; a published record is never one the client takes for missing |
| Daemon.DriftNeverShort | fbclock/daemon/daemon.go:285-297 | Once W could be computed the drift calculation never reports too little data |
| Daemon.HistoryOf | fbclock/daemon/daemon.go:235-283 | What the rings were given is a function of the sane points alone, whatever was answered |
| Daemon.FullWindow | fbclock/daemon/daemon.go:258-264 | With an M formula that never fails there are as many values of M as sane points |
| Daemon.MinRingSizeIsLeast | fbclock/daemon/daemon.go:119-125 | The ring covers a minute, is not smaller than configured, and is the least such size |
| Daemon.DaemonState.CalculateSHMData | fbclock/daemon/daemon.go:299-338 | The rings of at least RingSize slots behave as the full histories |
| Daemon.DaemonState.CalcW | fbclock/daemon/daemon.go:235-283 | M is pushed before the window of M is judged, and stays pushed when W fails |
| TZif.ParseIsCorrect | leapsectz/leapsectz.go:95-186 | On every RFC 8536 file, of one or two blocks and with any other data, exactly the leap seconds of the last block are returned |
| TZif.WriteRoundTrip | leapsectz/leapsectz.go:235-309 | What was written is read back: unchanged for version '2', with Tleap modulo 2^32 for version 0, and as an error for the empty list |
| TZif.HeaderWire | leapsectz/leapsectz.go:188-208 | The header in absolute bytes: "TZif", version, padding and six counts in the order of the RFC |
| TZif.LeapWire | leapsectz/leapsectz.go:261-266 | A leap record is the time, of 4 or 8 bytes, then the correction |
| TZif.NameWire | leapsectz/leapsectz.go:240-248 | The name is written with one zero byte, which its count includes; no name means UTC |
| TZif.HeaderRefused | leapsectz/leapsectz.go:98-119 | Other magic, other versions and a second header without a version are refused |
| TZif.SkipIsExact | leapsectz/leapsectz.go:135-150 | The skip count is exactly the bytes before the leap seconds, or all of a first block, with transition times of 4 and 8 bytes |
| TZif.WantedBlock | leapsectz/leapsectz.go:95-186 | The block that is read gives its leap seconds, whatever surrounds them |
| TZif.SkippedBlock | leapsectz/leapsectz.go:95-186 | The first block of two is passed over completely |
| TZif.ReadWritten | leapsectz/leapsectz.go:159-176 | Leap records of both widths are read back in order |
| TZif.ParseVx | leapsectz/leapsectz.go:95-186 | The version loop over a reader is total and computes what the theorems are about |
| TZif.ReadHeader | leapsectz/leapsectz.go:98-125 | The reads and checks of one header, and what is left of the input |
| TZif.ReadRecords | leapsectz/leapsectz.go:159-176 | The record loop, with its error on a short input |
| TZif.Write | leapsectz/leapsectz.go:235-309 | The writer receives a well-formed RFC 8536 file, cut where it stops taking bytes, and an error exactly in that case; other versions write nothing |
| TZif.WriteBlock | leapsectz/leapsectz.go:210-233 | One block, cut where the writer stops taking bytes |
| TZif.WriteLeaps | leapsectz/leapsectz.go:260-266 | The leap records of a block, up to the first write that fails |
| TZif.FileOfWriter | leapsectz/leapsectz.go:235-309 | The pieces written in turn are one or two blocks and a footer of RFC 8536 |
| NtpTime.TimeRoundTrip | ntp/protocol/ntp.go:34-45 | For every era-0 instant: unchanged when its nanoseconds are a multiple of 1953125, else one nanosecond less |
| NtpTime.TimeOrder | ntp/protocol/ntp.go:34-38 | Seconds and fraction order instants strictly |
| NtpTime.TimeInEraZero | ntp/protocol/ntp.go:34-38 | No int64 operation wraps in era 0 |
| NtpTime.WholeSeconds | ntp/protocol/ntp.go:34-45 | 1970 is second 2208988800, whole seconds have fraction 0 and half seconds 2^31, both ways |
| NtpTime.OffsetErrorOnWire | ntp/protocol/ntp.go:48-61 | After three timestamps went through NTP format the offset is off by at most half the delay rounded up plus 2 ns |
| NtpTime.OffsetError | ntp/protocol/ntp.go:48-61 | For any true offset and path delays the error is at most half the round trip delay rounded up |
| Measurements.OffsetError | ptp/simpleclient/measurements.go:138-144 | The two differences are path delay plus and minus the true offset, delay + offset is the first of them, and the offset is off by half the path asymmetry up to rounding |
| Measurements.TimesFrom | ptp/simpleclient/measurements.go:61-109 | Each of t1 to t4 and its correction is that of the last packet of its kind and sequence number |
| Measurements.TimesKnown | ptp/simpleclient/measurements.go:61-109 | A time that is set comes from such a packet |
| Measurements.MeasurementLog.Latest | ptp/simpleclient/measurements.go:113-153 | Complete pairs with maximal arrival times are used, whatever the map order, with both error cases exact |
| Measurements.MeasurementLog.LatestSync | ptp/simpleclient/measurements.go:116-123 | A complete Sync pair with maximal t2, or none exists |
| Measurements.MeasurementLog.LatestDelay | ptp/simpleclient/measurements.go:124-131 | A complete delay pair with maximal t4, or none exists |
| Measurements.MeasurementLog.AddSync | ptp/simpleclient/measurements.go:61-71 | The maps keep saying what the newest packets of each sequence number said |
| Measurements.MeasurementLog.AddFollowUp | ptp/simpleclient/measurements.go:74-84 | The same for Follow_Up |
| Measurements.MeasurementLog.AddDelayReq | ptp/simpleclient/measurements.go:87-96 | The same for Delay_Req |
| Measurements.MeasurementLog.AddDelayResp | ptp/simpleclient/measurements.go:99-109 | The same for Delay_Resp |
| Tester.RunSafety | ptp/linearizability/linearizability_ptp4l.go:475-525 | For every sequence of messages, duplicates, losses and timeouts: a run without error is Done, with a result from an answer handled in that run |
| Tester.TurnKeeps | ptp/linearizability/linearizability_ptp4l.go:375-440 | Every turn keeps: Done implies a result, the map holds exactly the open requests with their last timestamps, every answer closed an open request with its timestamp |
| Tester.AnsweredOnce | ptp/linearizability/linearizability_ptp4l.go:417-435 | Between two answers with one sequence number lies the request that the second one answers |
| Tester.StaleIff | ptp/linearizability/linearizability_ptp4l.go:475-525 | Every successful run measures a request of its own if and only if no request is open when it starts |
| Tester.LateAnswerFinishes | ptp/linearizability/linearizability_ptp4l.go:486-521 | A late answer ends a new run before it sent anything |
| Tester.OwnFrom | ptp/linearizability/linearizability_ptp4l.go:362-373 | With nothing open, a later answer belongs to a later request |
| Tester.GrantSends | ptp/linearizability/linearizability_ptp4l.go:386-397 | A grant for Delay_Resp of any positive duration sends exactly one request, recorded under the next number |
| Tester.GrantUnsent | ptp/linearizability/linearizability_ptp4l.go:386-397 | A request that does not go out is an error and leaves no trace |
| Tester.GrantDenies | ptp/linearizability/linearizability_ptp4l.go:390-392 | A duration of 0 is a denial and changes nothing |
| Tester.OtherTlvs | ptp/linearizability/linearizability_ptp4l.go:398-406 | Other grants and cancellations are ignored, other TLVs are errors |
| Tester.TlvsInOrder | ptp/linearizability/linearizability_ptp4l.go:384-408 | TLVs are handled in order up to the first error |
| Tester.OtherMessages | ptp/linearizability/linearizability_ptp4l.go:375-383 | Undecodable messages are errors, messages of other kinds are ignored |
| Tester.AnswerIs | ptp/linearizability/linearizability_ptp4l.go:417-435 | An answer to an open request gives its times, closes it and leaves the others open; any other answer is an error |
| Tester.SequenceWraps | ptp/linearizability/linearizability_ptp4l.go:326-342 | Packet numbers count up by one and wrap after 65535 |
| Tester.AnsweredRunFinishes | ptp/linearizability/linearizability_ptp4l.go:475-525 | A run with its request answered finishes with that request's times |
| Tester.SubscribedRunFinishes | ptp/linearizability/linearizability_ptp4l.go:475-525 | A subscribed run of grant and answer finishes with the times of the request that the grant triggered |
| Tester.OneRequest | ptp/linearizability/linearizability_ptp4l.go:475-525 | Without grants a run sends at most one request, and none with a subscription |
| Tester.ReportSafety | ptp/linearizability/linearizability_ptp4l.go:529-556 | A report without error stems from an answer handled by this call, also across the repeated run with a subscription |
| Tester.RenewedRunReports | ptp/linearizability/linearizability_ptp4l.go:529-556 | After a lost answer the renewed run reports the granted request without an error |
| Tester.FirstRunReports | ptp/linearizability/linearizability_ptp4l.go:529-556 | An answered or cancelled first run is final, whatever a second one would bring |
| Tester.PTP4lTester.HandleMsg | ptp/linearizability/linearizability_ptp4l.go:375-440 | The in-place handler makes the step the theorems are about, up to the first error of a TLV list |
| Tester.PTP4lTester.SendDelay | ptp/linearizability/linearizability_ptp4l.go:362-373 | The timestamp is stored under the number the packet carried; a failed send changes nothing |
| Tester.PTP4lTester.RunSingleTest | ptp/linearizability/linearizability_ptp4l.go:475-525 | The loop ends at the first event that ends the run |
| Tester.PTP4lTester.RunTest | ptp/linearizability/linearizability_ptp4l.go:529-556 | A second run exactly after a timeout of the first |
| Crc16.ChecksumIsRemainder | sa53fw/xmodem/xmodem.go:39-56 | The checksum is the one and only remainder of the message times x^16 divided by the generator over GF(2) |
| Crc16.RemainderUnique | sa53fw/xmodem/xmodem.go:39-56 | Quotient and remainder of that division are unique |
| Crc16.ChecksumLinear | sa53fw/xmodem/xmodem.go:39-56 | The checksum of a xor is the xor of the checksums, for messages of one length |
| Crc16.SelfCheck | sa53fw/xmodem/xmodem.go:39-56 | A message followed by its big-endian checksum has checksum zero |
| Crc16.BurstDetected | sa53fw/xmodem/xmodem.go:39-56 | Every error burst of up to 16 bits at any position changes the checksum |
| Crc16.PassFeedsByte | sa53fw/xmodem/xmodem.go:43-52 | Xoring a byte into the upper half and shifting eight times is feeding its bits one by one |
| Crc16.Crc16 | sa53fw/xmodem/xmodem.go:39-56 | The nested loops compute that checksum with the generator 0x11021 |
| Xmodem.SendBlock1K | sa53fw/xmodem/xmodem.go:59-102 | Padding in place, the same self-checking frame until it is acknowledged or left unanswered, ten times at most, cut where the line stops taking bytes, and the outcome as an exact function of answers and room; success rests on a delivered ACK unless the checksum's high byte is ACK |
| Xmodem.TrueSuccessIff | sa53fw/xmodem/xmodem.go:81-95 | Success always rests on an acknowledgement from the line if and only if the high byte of the payload's checksum is not ACK |
| Xmodem.SilentSuccess | sa53fw/xmodem/xmodem.go:81-95 | 1023 zero bytes and 0x33 have checksum 0x0630, so one read that delivers nothing makes this block sent |
| Xmodem.Transmit | sa53fw/xmodem/xmodem.go:69-101 | The retry loop, with failing writes, failing reads and reads that deliver nothing |
| Xmodem.AttemptsAre | sa53fw/xmodem/xmodem.go:69-101 | One frame per answer up to the first ACK, and one more when answers run out |
| Xmodem.TenFrames | sa53fw/xmodem/xmodem.go:59-101 | Ten frames at most |
| Xmodem.WriteFrame | sa53fw/xmodem/xmodem.go:70-87 | The five writes put one frame on the line, or its first bytes |
| Xmodem.FrameWritten | sa53fw/xmodem/xmodem.go:70-87 | The five pieces written make up one frame whose payload and checksum sum to zero |
| CertBundle.Equals | calnex/cert/cert.go:140-165 | True exactly when the lists were equal as multisets on entry, also when both are one list |
| CertBundle.SwapRemove | calnex/cert/cert.go:147-153 | Overwriting by the last element and shortening removes one copy |
| CertBundle.Remaining | calnex/cert/cert.go:142-160 | A certificate that is not left proves the lists unequal |

## Left out

- IEEE rounding: `float64` values are exact reals throughout.
- Filter thresholds: `offsetStdev`, `freqStdev`, `lastCorrectionTime` and the square roots behind them; the resulting threshold `maxOffsetLocked` is an arbitrary input of `IsSpike`, and so are the two powers of the sync interval.
- SetLastFreq, InitLastFreq, SetMaxFreq and makePiSlow: assignments that may leave the range on purpose.
- A zero integral gain divides by zero in float64 and is then capped at 1000 s, which is how the estimate interval is modelled.
- Packets other than Signaling, Announce and Sync/Delay_Req, and management TLVs other than the unicast master table: fixed-size fields of the same kind.
- What a buffer holds after a panic or a refused name, and buffers whose capacity exceeds their length.
- Address bytes beyond IPv4 and IPv6 when a table is written; when one is read they are modelled.
- Writers that report an error although they took all bytes of a write: a `Sink` or `Port` fails at the write that does not fit.
- The hardware CRC of the shared record: any function of the three fields, with a stated assumption that it tells apart the triples in play; and the exit of the load after 1000 failed tries, which returns data without a match.
- Conversions of doubles outside uint64, undefined in C and Go: smear times and offsets are required to fit, W is below 2^64, and drift is nonnegative.
- Smear.OrderedIff: for windows that start after both offsets and end within int64 nanoseconds, as published ones do.
- The configured formulas for M, W and drift are arbitrary functions of their windows that may fail; logging, counters, `aggregateDataPointsMax` and the ring of test results are not part of the model.
- Saturation of `time.Time.Sub` beyond 292 years, and NTP eras other than 0.
- Tester.PTP4lTester.RunSingleTest: messages arrive decoded, the timestamp of a sent packet is an input, and the events up to the end of the run are given.
- Sockets, ioctls, mmap, goroutines, mutexes and HTTP endpoints.
- Slices of bundles that overlap partially.
- ntpcheck, ptpcheck, calnex, chrony and ntpd control packets, ziffy, and the sptp client and ptp4u server.
