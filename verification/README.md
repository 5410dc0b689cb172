# DATAQ binary-mode sample decoding, modelled in Dafny

DATAQ's example scripts read a data-acquisition instrument in binary mode. Every script
has the same core. `config_scn_lst` walks the configured scan list (`slist`) of 16-bit
codes and builds a per-position range table, or a table of analog accumulators. The
acquisition loop then reads the instrument's stream two bytes at a time. It decodes each
sample by the function of the scan-list position it falls on: voltage, thermocouple,
digital inputs, rate or counter. It converts the sample to engineering units and
advances a round-robin `slist_pointer`. At the end of each pass it emits one output
record. The decimating scripts (DI-1110 and DI-1100) keep per-channel sums over
`decimation_factor` passes instead, and emit their means once per cycle.

This project models that core for the five scripts:

| module | script |
|---|---|
| `Di1110` | `binary_comm/DI-1110/DI_1110.py` |
| `Di1100` | `binary_comm/DI-1100/DI_1100.py` |
| `Di2008` | `binary_comm/DI-2008/di_2008.py` |
| `Di245` | `binary_comm/DI-245/DI_245.py` |
| `StarterKit` | `binary_comm/other_models/DataqStarterKit.py` (DI-1120, DI-2108, DI-4108, DI-4208, DI-4718B) |

They share these modules:

- `Words`: byte pairs, and Python's `int.from_bytes`, shift and mask idioms on them.
- `Channels`: each script's rule for classifying a scan-list code.
- `Tables`: the gain, rate and thermocouple constants.
- `Readings`: the unit conversions and the sentinel values.
- `Frames`: the pass cursor of the non-decimating scripts.
- `Columns`: per-channel sums over a flat sample stream.
- `Cycles`: a generic machine that emits one record per fixed-length cycle of samples, with a cycle-invariant argument.
- `Arith` and `Wrappers`: small helpers.

Every loop is modelled as a `Step` over one sample and a `Run` over a sequence of
samples. The emitted records are then characterised against an independent reference.
For the non-decimating scripts, the reference is the stream of samples chopped into
passes, each sample decoded at its position. For the decimating scripts, it is
`CycleRecord`, which computes a cycle's record from that cycle's samples: column sums
over the passes, and the last pass's samples.

Python's floor shifts and masks map to Dafny's Euclidean `/` and `%` by powers of two.
These agree for the positive divisors involved, including on negative readings.
Float arithmetic is modelled with exact `real`s.

## Model

| member | source | states |
|---|---|---|
| Words.SignedLE | binary_comm/DI-1100/DI_1100.py:188 | little-endian signed 16-bit decoding: in [-32768, 32767], congruent to the unsigned word mod 65536, negative exactly when the high byte's top bit is set |
| Words.SignedLERoundTrip | binary_comm/DI-1100/DI_1100.py:188 | signed little-endian decoding is inverted by the instrument-side encoding, so every byte pair is one distinct reading |
| Words.DigitalBits7 | binary_comm/DI-1110/DI_1110.py:224 | the big-endian unsigned word masked with 0x7f is in [0, 127] and is the seven low bits of the second byte |
| Words.BiasedLE | binary_comm/DI-1110/DI_1110.py:229-238 | rate and counter bias: reading + 32768 is in [0, 65535]; -32768 maps to 0 and 32767 to 65535; it equals the unsigned word shifted by 32768 mod 65536 |
| Words.BiasMonotone | binary_comm/DI-1110/DI_1110.py:238 | the bias preserves the order of readings in both directions |
| Words.StripLsbs | binary_comm/DI-1100/DI_1100.py:197-198 | `(r >> 2) << 2` is a multiple of 4, at most r, removes exactly `r & 3` (in [0, 3]), and keeps the sign of r |
| Words.TcType | binary_comm/DI-2008/di_2008.py:238-241 | `(item & 0x0700) >> 8` is in [0, 7] and is the low three bits of the gain byte |
| Channels.ClassifyByNibble | binary_comm/DI-1110/DI_1110.py:209-239 | low nibble < 8 analog, 8 digital, 9 rate, otherwise counter; each code gets exactly one function, stated as an iff per branch |
| Channels.ClassifyDi2008 | binary_comm/DI-2008/di_2008.py:137-163 | nibble < 8 with bit 12 clear is voltage, with it set thermocouple; 8 digital, 9 rate, otherwise counter; each an iff |
| Channels.ClassifyDi245 | binary_comm/DI-245/DI_245.py:127-132 | bit 12 alone decides voltage versus thermocouple |
| Channels.Di2008RefinesNibble | binary_comm/DI-2008/di_2008.py:216-217 | the DI-2008 rule only splits the nibble rule's analog class into voltage and thermocouple |
| Tables.RateRange | binary_comm/DI-1110/DI_1110.py:142-145 | `rate_ranges[code - 1]` lies in [10, 50000] Hz; code 1 gives 50 kHz and code 12 gives 10 Hz |
| Tables.RateRangeAsWritten | binary_comm/DI-1110/DI_1110.py:142-145 | the lookup as Python evaluates it agrees with `RateRange` on codes 1 to 12, and code 0 wraps to the last entry |
| Tables.RateCodeZero | binary_comm/DI-1110/DI_1110.py:145 | code 0 is no rate code, yet the lookup as written yields the 10 Hz range instead of failing |
| Tables.RateRangeDescending | binary_comm/DI-1110/DI_1110.py:51 | a higher rate code always selects a strictly smaller ceiling |
| Tables.AnalogRangesNonNegative | binary_comm/DI-2008/di_2008.py:51 | no gain code has a negative full scale; the entry is 0 exactly for the reserved codes 6, 7, 14 and 15 |
| Readings.ScaleVolts | binary_comm/DI-2008/di_2008.py:222 | `range * counts / fullScale` stays within [-range, range] for in-range counts; the most negative count gives -range; a zero range gives 0 |
| Readings.TcReading | binary_comm/DI-2008/di_2008.py:230-243 | the cjc and open sentinels are checked before any scaling and arise exactly for their reserved counts; any other count gives `slope * counts + offset` |
| Readings.ScaleRate | binary_comm/DI-2008/di_2008.py:252 | `biased / 65535 * range` lies in [0, range]; 0 maps to 0 and 65535 to the full range |
| Readings.AverageVolts | binary_comm/DI-1110/DI_1110.py:217-219 | `sum * 10 / 32768 / factor` is within ±10 V for a sum of `factor` 16-bit readings, and with factor 1 it is the plain ±10 V scaling |
| Readings.AverageRate | binary_comm/DI-1110/DI_1110.py:231-233 | `total / 65535 * range / factor` lies in [0, range] for a total of `factor` biased readings, and with factor 1 it is the plain rate scaling |
| Frames.Push | binary_comm/DI-2008/di_2008.py:260-267 | the pointer advances by one within a pass; at the pass's last position it returns to 0 and the record of exactly `width` values is emitted, and only then |
| Frames.AssembleRecords | binary_comm/DI-2008/di_2008.py:260-267 | after any values: `n / width` records, each of `width` values; the pointer is `n % width` and the pending values are the unfinished pass |
| Frames.AssembleRecord | binary_comm/DI-2008/di_2008.py:260-267 | record k is exactly input values `k * width` to `k * width + width - 1`, in order |
| Di1110.ConfigScanList | binary_comm/DI-1110/DI_1110.py:129-146 | one zero accumulator per analog code, and `rate_range` is the range of the last rate code (unset when there is none) |
| Di1110.RateRangeIsLast | binary_comm/DI-1110/DI_1110.py:142-145 | each rate code overwrites `rate_range`, so the last rate code's range is the one kept |
| Di1110.RateRangeSet | binary_comm/DI-1110/DI_1110.py:142-145 | `rate_range` is set whenever the scan list holds a rate code |
| Di1110.RateRangeUnset | binary_comm/DI-1110/DI_1110.py:142-145 | without a rate code, `rate_range` stays unset |
| Di1110.ChannelNumbering | binary_comm/DI-1110/DI_1110.py:212-216 | `achan_number` at an analog position is the count of analog codes before it, which is below the accumulator table's length |
| Di1110.ChannelIndexInjective | binary_comm/DI-1110/DI_1110.py:212-216 | two analog positions share an accumulator iff they are the same position |
| Di1110.Initial | binary_comm/DI-1110/DI_1110.py:244-258 | the state at start and after each emitted record: pointer and `achan_number` 0, `dec_count` = `decimation_factor`, every accumulator and `rate_accum` zero, empty output |
| Di1110.Absorb | binary_comm/DI-1110/DI_1110.py:209-239 | a sample leaves the pointer and `dec_count` alone, moves `achan_number` past the position, and appends one reading exactly on the last pass |
| Di1110.Step | binary_comm/DI-1110/DI_1110.py:206-258 | keeps `dec_count` in [1, factor], pointer in range and `achan_number` in step with it; emits exactly at the end of a pass with `dec_count` 1, then resets everything; otherwise counts down at pass end |
| Di1110.AbsorbCycle | binary_comm/DI-1110/DI_1110.py:209-239 | each analog accumulator stays its column's sum, `rate_accum` the sum of the biased rate samples, and the output the entries of the positions visited on the last pass |
| Di1110.StepCycle | binary_comm/DI-1110/DI_1110.py:206-258 | from a cycle state, a record is emitted iff the sample completes `factor * len(slist)` samples; it is the reference record of that cycle, and the state restarts |
| Di1110.MachineCyclic | binary_comm/DI-1110/DI_1110.py:206-258 | the loop emits, every `factor * len(slist)` samples, the reference record of those samples |
| Di1110.RunRecordCount | binary_comm/DI-1110/DI_1110.py:244-258 | over any stream, the records number `|samples| / (factor * len(slist))`: one per `decimation_factor` passes |
| Di1110.RunRecord | binary_comm/DI-1110/DI_1110.py:206-258 | record k of any stream is the reference record of the k-th cycle of samples |
| Di1110.CycleRecordAnalog | binary_comm/DI-1110/DI_1110.py:212-219 | an analog position reports (sum of its readings over the cycle's passes) * 10 / 32768 / factor, within ±10 V |
| Di1110.RateTotalSingle | binary_comm/DI-1110/DI_1110.py:227-230 | with a single rate position, the shared `rate_accum` is that position's column sum of biased readings |
| Di1110.CycleRecordRate | binary_comm/DI-1110/DI_1110.py:227-233 | a lone rate position reports (sum of its biased readings) / 65535 * range / factor, with the range of its own code, within [0, range] |
| Di1110.CycleRecordLastPass | binary_comm/DI-1110/DI_1110.py:221-239 | digital and counter positions are never summed: they report the sample of the cycle's last pass |
| Di1110.AveragingScenario | binary_comm/DI-1110/DI_1110.py:212-219 | with factor 2 and one ±10 V channel, readings 16384 and 0 yield one record holding 2.5 V |
| Di1100.ConfigScanList | binary_comm/DI-1100/DI_1100.py:120-127 | one zero accumulator per scan-list code |
| Di1100.Initial | binary_comm/DI-1100/DI_1100.py:232-246 | the state at start and after each record: pointer 0, `dec_count` = `decimation_factor`, zero accumulators, empty output, `dig_in` carried over |
| Di1100.Contribution | binary_comm/DI-1100/DI_1100.py:191-227 | position 0 accumulates its reading with the two digital bits removed; every other position accumulates its reading unmodified |
| Di1100.ContributionBounds | binary_comm/DI-1100/DI_1100.py:197-198 | a stripped reading stays within the converter's signed range |
| Di1100.Absorb | binary_comm/DI-1100/DI_1100.py:191-227 | `achan_number` moves with the pointer; exactly one reading is appended, on the last pass only |
| Di1100.AbsorbEffect | binary_comm/DI-1100/DI_1100.py:191-227 | the four branches are one rule: accumulate the contribution; on the last pass, append the mean; on position 0 of the last pass, set `dig_in` to `r & 3` |
| Di1100.Step | binary_comm/DI-1100/DI_1100.py:183-246 | `dec_count` stays in [1, factor] and `achan_number` equals the pointer; a record of `len(slist) + 1` values is emitted exactly at the end of a pass with `dec_count` 1, then the state resets; otherwise the count goes down at pass end |
| Di1100.StepCycle | binary_comm/DI-1100/DI_1100.py:183-246 | from a cycle state, a record is emitted iff the sample completes `factor * len(slist)` samples; it is the reference record of that cycle |
| Di1100.MachineCyclic | binary_comm/DI-1100/DI_1100.py:183-246 | the loop emits, every `factor * len(slist)` samples, the reference record of those samples |
| Di1100.RunRecordCount | binary_comm/DI-1100/DI_1100.py:232-246 | over any stream, the records number `|samples| / (factor * len(slist))` |
| Di1100.RunRecord | binary_comm/DI-1100/DI_1100.py:183-246 | record k of any stream is the reference record of the k-th cycle of samples |
| Di1100.CycleRecordAnalog | binary_comm/DI-1100/DI_1100.py:191-227 | position j reports (sum of its contributions over the cycle's passes) * 10 / 32768 / factor, within ±10 V |
| Di1100.CycleRecordDigital | binary_comm/DI-1100/DI_1100.py:191-203 | the record's last value is `r & 3` of position 0's reading on the last pass; that reading is its stripped contribution plus these bits |
| Di1100.SingleChannelScenario | binary_comm/DI-1100/DI_1100.py:191-203 | without decimation, a reading of 0x4001 at position 0 reports 5 V and digital inputs 1 |
| Di2008.RangeEntry | binary_comm/DI-2008/di_2008.py:137-163 | entries are non-negative; only voltage and rate codes get a non-zero entry; a rate entry is at least 10 Hz |
| Di2008.ConfigScanList | binary_comm/DI-2008/di_2008.py:130-163 | exactly one range-table entry per scan-list code, in scan-list order, each the code's entry |
| Di2008.DecodeSample | binary_comm/DI-2008/di_2008.py:216-258 | the reading's kind matches the configuration-time classification (each an iff); the sentinels arise exactly for raw 32767 and -32768 on thermocouples; volts within ±range, digital in [0, 127], rate in [0, range], counter in [0, 65535] |
| Di2008.VoltageReading | binary_comm/DI-2008/di_2008.py:220-223 | a voltage channel reads `analog_ranges[item >> 8] * raw / 32768`; a reserved gain code reads 0 V rather than failing |
| Di2008.ThermocoupleReading | binary_comm/DI-2008/di_2008.py:237-243 | a non-sentinel thermocouple reads `tc_m[t] * raw + tc_b[t]` with t = bits 8 to 10 of its code |
| Di2008.RateReading | binary_comm/DI-2008/di_2008.py:250-253 | a rate channel reads `(raw + 32768) / 65535 * rate_ranges[code - 1]`, within [0, that range] |
| Di2008.Step | binary_comm/DI-2008/di_2008.py:260-267 | the pointer advances per sample; a record of `len(slist)` readings is emitted exactly at a pass's last position, and the pointer returns to 0 |
| Di2008.RunAssembles | binary_comm/DI-2008/di_2008.py:213-267 | the loop equals chopping the stream of position-decoded samples into passes |
| Di2008.RunPasses | binary_comm/DI-2008/di_2008.py:260-267 | over any stream: the pointer is `|samples| % len(slist)`, one record per pass, each of `len(slist)` readings |
| Di2008.RunRecord | binary_comm/DI-2008/di_2008.py:213-267 | value i of record k is sample `k * len(slist) + i`, decoded with position i's code and range |
| Di2008.VoltageScenario | binary_comm/DI-2008/di_2008.py:220-223 | two ±10 V channels reading 16384 and -16384 give the record [5 V, -5 V] |
| Di2008.OpenThermocoupleScenario | binary_comm/DI-2008/di_2008.py:234-235 | a K-type thermocouple reading -32768 reports "open" |
| Di245.FlipSign | binary_comm/DI-245/DI_245.py:198 | `b ^ 0x80` toggles the top bit and keeps the seven low bits |
| Di245.FlipSignInvolution | binary_comm/DI-245/DI_245.py:198 | flipping twice restores the byte |
| Di245.OffsetBinary | binary_comm/DI-245/DI_245.py:196-206 | flipping the high byte's top bit and reading signed little-endian gives the unsigned word minus 32768 |
| Di245.Unpack14 | binary_comm/DI-245/DI_245.py:196-219 | the script's shift-and-mask steps give a count in [-8192, 8191], equal to `0x80 * (b1 >> 1) + (b0 >> 1) - 8192` |
| Di245.SyncBitsIgnored | binary_comm/DI-245/DI_245.py:207-219 | two samples unpack to the same count iff they agree on all bits but the sync bits |
| Di245.Unpack14Pack14 | binary_comm/DI-245/DI_245.py:196-219 | unpacking inverts the instrument's packing of any 14-bit count, whatever the sync bits |
| Di245.Pack14Unpack14 | binary_comm/DI-245/DI_245.py:196-219 | a sample is determined by its count and its two sync bits |
| Di245.DigitalWord | binary_comm/DI-245/DI_245.py:252-268 | `((b1 >> 1) * 256 + b0) >> 7` equals `2 * (b1 >> 1) + (b0 >> 7)`, in [0, 255] |
| Di245.RangeEntry | binary_comm/DI-245/DI_245.py:127-132 | bit 12 clear gives `analog_ranges[item >> 8]`, set gives the placeholder 0 |
| Di245.ConfigScanList | binary_comm/DI-245/DI_245.py:120-132 | exactly one range-table entry per scan-list code, in scan-list order |
| Di245.DecodeSample | binary_comm/DI-245/DI_245.py:221-242 | voltage iff bit 12 is clear, within ±range; thermocouple sentinels exactly for counts 8191 and -8192 |
| Di245.VoltageReading | binary_comm/DI-245/DI_245.py:221-224 | a voltage channel reads `analog_ranges[item >> 8] * counts / 8192` |
| Di245.ThermocoupleReading | binary_comm/DI-245/DI_245.py:236-242 | a non-sentinel thermocouple reads `tc_m[t] * counts + tc_b[t]` with the DI-245 slopes |
| Di245.DecodeAt | binary_comm/DI-245/DI_245.py:244-268 | the digital word is decoded at the extra position after the analog ones, and only there |
| Di245.Step | binary_comm/DI-245/DI_245.py:244-272 | a pass holds `len(slist)` samples, plus the digital word when enabled; a record of that many values is emitted exactly at the pass's end |
| Di245.RunAssembles | binary_comm/DI-245/DI_245.py:188-272 | the loop equals chopping the stream of position-decoded samples into passes |
| Di245.RunPasses | binary_comm/DI-245/DI_245.py:244-272 | over any stream: one record per pass, each of pass-width values; the pointer is the remainder |
| Di245.RunRecord | binary_comm/DI-245/DI_245.py:188-272 | value i of record k is the analog reading of sample `k * width + i`, or the digital word at the last position |
| Di245.DigitalInputsScenario | binary_comm/DI-245/DI_245.py:252-268 | a ±10 V channel reading count 4096 plus digital word 3 gives the record [5 V, 3] |
| StarterKit.AnalogRangesOf | binary_comm/other_models/DataqStarterKit.py:89-99 | each model's gain table is non-empty with positive ranges; the DI-2108 has only 10 V and the DI-4718B only 5 V |
| StarterKit.FixedRangeModels | binary_comm/other_models/DataqStarterKit.py:96-99 | on a fixed-range model, an analog code indexes the table iff its gain code is 0 |
| StarterKit.RangeEntry | binary_comm/other_models/DataqStarterKit.py:171-190 | analog entries are positive, rate entries at least 10 Hz, digital and counter entries 0 |
| StarterKit.ConfigScanList | binary_comm/other_models/DataqStarterKit.py:164-190 | exactly one range-table entry per scan-list code, in scan-list order |
| StarterKit.DecodeSample | binary_comm/other_models/DataqStarterKit.py:245-266 | reading kind iff the nibble class; volts within ±range, digital in [0, 127], rate in [0, range], counter in [0, 65535] |
| StarterKit.AgreesWithDi2008 | binary_comm/other_models/DataqStarterKit.py:245-266 | decoding agrees with the DI-2008 script except that a DI-2008 thermocouple code is read as a voltage |
| StarterKit.Step | binary_comm/other_models/DataqStarterKit.py:268-275 | the pointer advances per sample; a record of `len(slist)` readings is emitted exactly at a pass's last position |
| StarterKit.RunAssembles | binary_comm/other_models/DataqStarterKit.py:242-275 | the loop equals chopping the stream of position-decoded samples into passes |
| StarterKit.RunPasses | binary_comm/other_models/DataqStarterKit.py:268-275 | over any stream: the pointer is `|samples| % len(slist)`, one record per pass, each of `len(slist)` readings |
| StarterKit.RunRecord | binary_comm/other_models/DataqStarterKit.py:242-275 | value i of record k is sample `k * len(slist) + i`, decoded with position i's code and range |
| StarterKit.Di2108Scenario | binary_comm/other_models/DataqStarterKit.py:248-251 | on the DI-2108 (range 10), raw 16384 reads 5.0 V and -32768 reads -10.0 V |

## Left out

- Serial I/O, device discovery, `send_cmd`, the keyboard commands, `time.sleep` and printing are left out. Samples are given as byte pairs, and records as sequences of readings rather than formatted strings. The number formats (`{: 3.3f}` and the others) are not modelled.
- The `inWaiting() > 2 * len(slist)` batching is not modelled. It only decides when samples are read, not how they are decoded. The models consume one sample per step.
- `binary_comm/misc/LED_Test/LED_Test.py` is not part of this model. It has no decoding logic.
- Python floats are modelled as exact reals, so rounding is not modelled.
- A gain or rate code outside its table raises `IndexError` in the scripts. The models make a valid code a precondition of configuration (the `CodeValid` predicates).
- Rate code 0 would index `rate_ranges[-1]` and silently select 10 Hz. The decoders exclude it through `CodeValid`; the lookup as written is kept apart in `Tables.RateRangeAsWritten` (see Findings).
- An empty scan list is excluded (`ValidConfig`). The scripts would never finish a pass with one.
- A decimation factor below 1 is excluded. The scripts use it as a positive count.
- Reserved gain codes (table entry 0) are modelled as the scripts behave: they build and decode, reading 0 V (`Di2008.VoltageReading`). No configuration error is raised for them.
- Di1100.Run: `dig_in` is undefined in the script until the first final pass assigns it. The model starts it at 0; it is always assigned before it is reported.
- Di1110.CycleRecordRate: the script's `rate_accum` is one accumulator shared by every rate position. The model keeps that (`RateTotal`), but states the averaged rate reading only for a scan list with a single rate position, the instrument's configuration.
- Frames.AssembleRecords: states the shape of the records; their element values are stated per record by `Frames.AssembleRecord`.
- The scenario lemmas are stated for any byte pairs whose decoded values are the ones named, rather than for fixed bytes.
- The scripts report no configuration errors and know no transport errors: a bad code fails with a Python `IndexError`, and a thermocouple fault is an inline reading. The models follow the scripts. Invalid codes are preconditions, and the thermocouple sentinels are `Reading` values.

## Findings

| source | as written | input that shows it | evidently intended | confidence | as-written member | corrected member |
|---|---|---|---|---|---|---|
| binary_comm/DI-1110/DI_1110.py:145 | `rate_ranges[(item >> 8) - 1]` (also di_2008.py:156 and DataqStarterKit.py:185) | rate code 0x0009 (rate function, range code 0): index -1 silently selects 10 Hz | only range codes 1 to 12 are accepted; code 0 is rejected at configuration | medium; not executed | Tables.RateRangeAsWritten, Tables.RateCodeZero | Tables.RateRange, with `RateCodeValid` required by every `CodeValid` |
