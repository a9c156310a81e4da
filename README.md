# VL53L0X timing-budget core, modelled in Dafny

This project models the core of a Node.js driver for the ST VL53L0X
time-of-flight distance sensor. That core does five things:

- It packs ranging timeouts into the sensor's compact timeout format.
- It converts between macro-clock ticks and microseconds for a given pulse
  (VCSEL) period.
- It adds up the time of the enabled sequence steps (TCC, DSS, MSRC and
  pre-range) into a measurement timing budget.
- It programs the final-range timeout so that a requested budget is filled.
- It rewrites the stage timeouts when a pulse period changes, and it filters
  the reference-SPAD map during set-up.

One sensor is modelled as its register file: 256 byte-wide registers. A read
is a lookup and a write replaces one register, or two consecutive ones for a
16-bit register.

## Modules

- `TimeoutCodec`: `decodeTimeout`, `encodeTimeout` and `encodeVcselPeriod`.
  The encoder is a method with its normalising loop, proved equal to a
  recursive specification.
- `ClockModel`: `calcMacroPeriod` and the two conversions.
  - The source computes in floating point; this module computes the exact
    rational values in integers. The macro period in picoseconds is
    S = 3813120·p + 500.
  - Ticks to microseconds is (m·S + S/2) div 10^6.
  - Microseconds to ticks is (u·10^6 + S/2) div S. The source leaves that
    quotient unrounded, but every caller passes it to the encoder or to a
    byte write, which truncate it.
- `Budget`: `calcCommonBudget` over the sequence-step records.
- `I2CCore`: 8- and 16-bit register access, the enables and timeouts read by
  `_getSequenceSteps`, the budget reading of `_getBudget`, and the SPAD
  information byte.
- `ReferenceSpads`: the SPAD loop of `setup`, in place on an array.
- `Vl53l0x`: the device operations as functions from one device state, a
  register file plus the cached budget, to an outcome and the next state.
  These are `setMeasurementTimingBudget`,
  `getMeasurementTimingBudgetInternal`, `performSingleRefCalibrationInternal`
  and `setVcselPulsePeriod`. The lemmas about them live here too.
- `Driver`: a `Sensor` class whose methods perform those operations register
  write by register write. Each method's postcondition says it ends in the
  state the matching `Vl53l0x` function describes.

The register addresses of utils/REG.js are not part of this model. They are
the fields of `I2CCore.RegisterTable`. Its `Valid()` states the distinctness
the driver relies on: the registers it reads back are pairwise different, and
no other write lands on `SYSTEM_SEQUENCE_CONFIG`.

## Where the model departs from the code as written

- **Record keys.** `_getSequenceStepEnables` and `_getSequenceStepTimeouts`
  build their records with snake_case keys. Readers that use another spelling
  see `undefined`:
  - `enables.msrc`, `enables.dss` and `enables.tcc` are spelled the same in
    I2C-core.js:188-190 and in utils/budget.js:2-8, so those three enables
    are read correctly.
  - `timeouts.msrcDssTccUs` (utils/budget.js:3, 7, 9) is undefined, because
    the record holds `msrc_dss_tcc_us` (I2C-core.js:213). So the common budget
    is `NaN` whenever TCC, DSS or MSRC is enabled.
  - `enables.preRange` (utils/budget.js:12) is undefined, because the record
    holds `pre_range`. So the pre-range stage is never added. With only the
    pre-range and final range enabled, the common budget is the base
    unchanged.
  - `budget.enables.finalRange` (index.js:137, 205) is undefined, because the
    record holds `final_range`. So `setMeasurementTimingBudget` never
    programs the final-range timeout, and
    `getMeasurementTimingBudgetInternal` never adds the final-range time.
  - index.js:151 reads `enables.pre_range`, which is present, but
    index.js:152 then adds `timeouts.preRangeMclks`, which is undefined.
  - index.js:148 reads `timeouts.finalRangeVcselPeriodPclks`, which is
    undefined, because the record holds `final_range_vcsel_period_pclks`.
  - index.js:206 reads `timeouts.finalRangeUs`, which is undefined, because
    the record holds `final_range_us`.
  - index.js:348-349 read `timeouts.preRangeUs` and `timeouts.msrcDssTccUs`,
    which are undefined, because the record holds `pre_range_us` and
    `msrc_dss_tcc_us`.
  - index.js:367-368 read `timeouts.finalRangeUs`, `enables.preRange` and
    `timeouts.preRangeMclks`, which are undefined, because the record holds
    `final_range_us`, `pre_range` and `pre_range_mclks`.

  The model has one record type and gives every reader the field its name
  means.
- **Helper names.** index.js calls `this.writeReg`, `this.readReg`,
  `this.getBudget`, `this.getSequenceSteps` and `this.addresses`, while
  I2C-core.js defines `_writeReg`, `_readReg`, `_getBudget`,
  `_getSequenceSteps` and `_addresses`. The model binds each call to the
  underscore-prefixed definition.
- **MSRC byte.** index.js:361 writes `newMsrcTimeoutMclks - 1` from an
  unrounded tick count. A count that rounds to 0 ticks stands for a value in
  (−1, 0), which the byte write truncates to 0. `MsrcTimeoutByte` writes 0
  there.
- **Type check.** The two halves of the condition at index.js:330 are the
  same test. The model checks the stage name once.

## Behaviour kept as written

- **Pre-range phase write.** index.js:350 writes the value 0x18 to the
  address `register[p]`, which is 0x18, 0x30, 0x40 or 0x50 depending on the
  period. No pre-range phase-high register is named anywhere in the source;
  only `PRE_RANGE_CONFIG_VALID_PHASE_LOW` is, at index.js:351. The model makes
  the same write to the same address.
- **Addresses used as values.** Several REG constants are used as data, for
  example `SYSTEM_SEQUENCE_CONFIG | vhvInitByte`, and `SYSRANGE_START` as the
  value written to stop. The model writes those addresses as values too.
  - `CalibrationWrites` passes the `SYSTEM_SEQUENCE_CONFIG` address to
    `StartValue` as its config byte.
  - `SpadInfoOf` uses the address as the aperture mask: for an odd address it
    tests bit 7, and for an even one the aperture flag is always false.

## Model

| member | source | states |
|---|---|---|
| TimeoutCodec.DecodeTimeout | utils/encode-decode.js:1-3 | A timeout word always decodes to at least one tick. |
| TimeoutCodec.TimeoutEncoding | utils/encode-decode.js:4-16 | A non-positive tick count encodes to 0. Otherwise the high byte is the number of halvings of mclks−1 needed to fit a byte, and the low byte is what is left. |
| TimeoutCodec.EncodeTimeout | utils/encode-decode.js:4-16 | The normalising loop returns the encoding of its argument (loop invariants over the halving count and the remaining mantissa). |
| TimeoutCodec.MantissaIsQuotient | utils/encode-decode.js:9-15 | The encoded mantissa is (m−1) div 2^exponent. The exponent is the least that fits, so a non-zero exponent comes with a mantissa of at least 128. |
| TimeoutCodec.DecodeEncodeWithinPrecision | utils/encode-decode.js:1-16 | For 1 ≤ m ≤ 2^31, decode(encode(m)) is at most m and loses less than 2^exponent. It is exact for m ≤ 256. |
| TimeoutCodec.EncodeDecodeRoundTrip | utils/encode-decode.js:1-16 | For every 16-bit word, encode(decode(w)) == w holds if and only if w is canonical (exponent 0 or mantissa ≥ 128). |
| TimeoutCodec.EncodingIsCanonical | utils/encode-decode.js:4-16 | Every word the encoder returns for 1 ≤ m ≤ 2^31 is canonical. |
| TimeoutCodec.ExponentOfInt32 | utils/encode-decode.js:11-14 | For every lsb below 2^31 the loop runs at most 23 times, so the exponent fits the high byte. |
| TimeoutCodec.EncodeVcselPeriod | utils/encode-decode.js:18-20 | (p >> 1) − 1 is read back as p for an even period, and as p − 1 for an odd one. |
| TimeoutCodec.VcselPeriodFromRegister | I2C-core.js:244-246 | ((r + 1) << 1) is even, and at least 2 for a register value. |
| TimeoutCodec.VcselPeriodRoundTrip | I2C-core.js:244-246 | Encoding the period read back from a register gives the register value again. |
| ClockModel.MacroPeriodPs | utils/calcs.js:1-3 | 1000·calcMacroPeriod(p) is an integer of at least 500 ps. |
| ClockModel.MacroPeriodShape | utils/calcs.js:1-3 | The macro period is 4 mod 8, and at least 2 µs for every period of at least one pclk. |
| ClockModel.MacroPeriodIncreasing | utils/calcs.js:1-3 | A longer pulse period gives a strictly longer macro period. |
| ClockModel.MclksToUs | utils/calcs.js:5-8 | timeoutMclksToMicroseconds in exact integers; its contract is stated by ClockModel.MclksToUsBounds, MclksToUsMonotonic and MclksRoundTrip. |
| ClockModel.MclksToUsBounds | utils/calcs.js:5-8 | The microseconds are the floor of (m + ½) macro periods. |
| ClockModel.UsToMclks | utils/calcs.js:10-13 | timeoutMicrosecondsToMclks, truncated as its callers truncate it; its contract is stated by ClockModel.UsToMclksNearest, UsToMclksMonotonic and UsRoundTrip. |
| ClockModel.UsToMclksNearest | utils/calcs.js:10-13 | The ticks are the whole number of macro periods nearest to the duration, halves rounding up. |
| ClockModel.MclksToUsMonotonic | utils/calcs.js:5-8 | Ticks to microseconds keeps order and keeps a non-negative count non-negative. |
| ClockModel.UsToMclksMonotonic | utils/calcs.js:10-13 | Microseconds to ticks keeps order and keeps a non-negative duration non-negative. |
| ClockModel.UsRoundTrip | utils/calcs.js:5-13 | Microseconds to ticks and back never loses time and gains at most S/10^6 µs. |
| ClockModel.MclksRoundTrip | utils/calcs.js:5-13 | Ticks to microseconds and back is exact for every period p ≥ 1, because S is four times an odd number. |
| Budget.CommonBudget | utils/budget.js:1-17 | calcCommonBudget; its contract is stated by Budget.CommonBudgetIsBasePlusStages, StageContributions, DssReplacesMsrc and MoreStagesMoreTime. |
| Budget.CommonBudgetIsBasePlusStages | utils/budget.js:1-17 | The accumulator adds exactly the enabled stages' time to its base, so shifting the base shifts the result by the same amount. |
| Budget.NoStageNoTime | utils/budget.js:1-17 | With no stage enabled the base comes back unchanged. |
| Budget.StageContributions | utils/budget.js:2-14 | TCC adds its time plus 590 µs, the pre-range adds its time plus 660 µs, and the final-range enable changes nothing. |
| Budget.DssReplacesMsrc | utils/budget.js:6-10 | DSS adds twice (time + 690 µs) and hides MSRC. MSRC alone adds its time plus 660 µs. |
| Budget.CommonBudgetReadsTwoTimeouts | utils/budget.js:1-17 | Only the MSRC/DSS/TCC and pre-range microseconds affect the result. |
| Budget.MoreStagesMoreTime | utils/budget.js:1-17 | With non-negative timeouts the budget is at least its base and grows when stages are added. |
| I2CCore.ToByte | I2C-core.js:105 | A byte write keeps the value modulo 256, which is the value itself for a byte. |
| I2CCore.Write8 | I2C-core.js:96-108 | An 8-bit write keeps the register file's 256 registers. The written register holds the value's low byte (I2CCore.ToByte), and every other register keeps its value. |
| I2CCore.Write16 | I2C-core.js:96-108 | A 16-bit write keeps 256 registers; what it stores is stated by I2CCore.Register16RoundTrip. |
| I2CCore.Read16 | I2C-core.js:127-131 | (b0 << 8) \| b1 is a 16-bit word whose high byte is the first register and whose low byte is the second. |
| I2CCore.Register16RoundTrip | I2C-core.js:96-134 | A 16-bit write reads back modulo 2^16, writing back a read word changes nothing, and no other register is touched. |
| I2CCore.StepEnables | I2C-core.js:184-194 | _getSequenceStepEnables; its contract is stated by I2CCore.EnablesRoundTrip and EnablesIgnoreOtherBits. |
| I2CCore.EnableBits | I2C-core.js:184-194 | The byte for a set of enables has bits 0, 1 and 5 clear. |
| I2CCore.EnablesRoundTrip | I2C-core.js:184-194 | Every set of enables is read back from its byte. |
| I2CCore.EnablesIgnoreOtherBits | I2C-core.js:184-194 | Decoding the sequence config keeps bits 2, 3, 4, 6 and 7 and drops only bits 0, 1 and 5. |
| I2CCore.StepTimeouts | I2C-core.js:196-220 | The periods are even and re-encode to their registers. MSRC ticks are the byte + 1. The final-range ticks plus the pre-range ticks (when enabled) are the decoded final word. Each microsecond value is its tick count converted at its stage's period, and converts back to that tick count exactly. |
| I2CCore.SequenceStepsOf | I2C-core.js:223-231 | The enables come from the sequence config, and the timeouts from the MSRC byte, the period registers and the pre-range word. |
| I2CCore.SequenceStepsDependOnStepRegisters | I2C-core.js:184-231 | Two register files that agree on the step registers give the same sequence steps. |
| I2CCore.BudgetOf | I2C-core.js:234-241 | The reading carries the sequence steps, and its value is the base plus the stage time, so at least the base. |
| I2CCore.SpadInfoOf | I2C-core.js:176-181 | The count is tmp & 0x7F. The aperture flag is bit 7 when the mask address is odd and false when it is even. |
| I2CCore.SpadInfoRoundTrip | I2C-core.js:176-181 | With an odd mask, count and aperture rebuild the byte. |
| ReferenceSpads.FirstSpadToEnable | index.js:72 | The first SPAD to enable is 12 exactly when the SPADs are aperture SPADs, and 0 exactly when they are not. |
| ReferenceSpads.ClearSpad | index.js:77 | Clearing SPAD i touches only byte 1 + i/8. |
| ReferenceSpads.ClearSpadBits | index.js:77 | Clearing SPAD i disables exactly SPAD i. |
| ReferenceSpads.CountStep | index.js:76-80 | The loop's counter decides whether SPAD i survives, and grows by one exactly when it does. |
| ReferenceSpads.KeptTotal | index.js:75-81 | The filter keeps min(count, enabled SPADs from the first one on) SPADs. |
| ReferenceSpads.FilterPrefix | index.js:75-81 | The map after the loop has scanned n positions has the original's length; which bits it holds is stated by ReferenceSpads.FilterPrefixBits, FilterPrefixSubset and FilterPrefixUntouched. |
| ReferenceSpads.FilterPrefixBits | index.js:75-81 | After n positions, exactly the surviving scanned SPADs are enabled, and unscanned ones are unchanged. |
| ReferenceSpads.FilterPrefixSubset | index.js:75-81 | The loop never sets a bit: the map stays a bitwise subset of the original. |
| ReferenceSpads.FilterPrefixUntouched | index.js:75-81 | Byte 0, and every byte holding only unscanned positions, keep their original value. |
| ReferenceSpads.FilteredMap | index.js:70-81 | A SPAD below 48 stays enabled if and only if it is among the first `count` enabled ones at or after the first SPAD to enable. Nothing below the first SPAD stays enabled, no bit is set, and byte 0 and bytes past position 47 are untouched. |
| ReferenceSpads.ScanSpad | index.js:76-80 | One loop body: it clears SPAD i or counts it, as the guard says. |
| ReferenceSpads.FilterReferenceSpads | index.js:70-81 | The loop leaves the array holding the filtered map (invariant: the counter is min(count, enabled so far)). |
| Vl53l0x.SetTimingBudget | index.js:127-163 | It ends done or with one of the two budget errors. Below 20000 µs it fails with the minimum-budget error, and only then. It fails with "Requested timeout too big" exactly when the enabled final range plus the common budget and 550 µs overrun the budget. On failure, or with the final range off, nothing changes. Otherwise only the final-range timeout word is written, with the remaining time plus the pre-range ticks, and the budget is cached. |
| Vl53l0x.MeasuredBudget | index.js:201-210 | getMeasurementTimingBudgetInternal; its contract is stated by Vl53l0x.MeasuredBudgetStages and CalibrationKeepsMeasure. |
| Vl53l0x.MeasuredBudgetStages | index.js:201-210 | The measured budget is 1920 + 960 µs, plus every enabled stage's time, plus the final-range time and 550 µs when the final range is on. |
| Vl53l0x.DecodeIgnoresHighBits | utils/encode-decode.js:1-3 | Decoding reads only the low 16 bits of a word, which is all a 16-bit register keeps. |
| Vl53l0x.FinalWordWrite | I2C-core.js:196-220 | Writing the final-range word changes only the final-range ticks and microseconds of the sequence steps. |
| Vl53l0x.MeasureAfterFinalWrite | index.js:201-210 | After a final-range write, the measured budget is the set-side common budget + 600 µs + the decoded final-range time + 550 µs. |
| Vl53l0x.FinalTimeRounding | index.js:144-157 | The final-range time read back from the programmed word is at most the remaining time plus one macro period's rounding, and at least it when the word is exact. |
| Vl53l0x.SetThenMeasure | index.js:127-210 | Measuring after setting b µs gives b + 600 µs (the start overheads differ) within one macro period when the timeout is exact, and never more than that for any timeout the encoder handles. |
| Vl53l0x.SetTimingBudgetIdempotent | index.js:127-163 | Setting the same budget twice leaves the device as setting it once does. |
| Vl53l0x.SetupSequenceConfig | index.js:109 | 0xE8 enables DSS, the pre-range and the final range, and disables MSRC and TCC. |
| Vl53l0x.ApplyWrites | index.js:305-309 | A register no write names keeps its value. A register some write names ends holding the value of the last write to it. |
| Vl53l0x.StartValue | index.js:306 | The start value has every VHV bit and every bit of the config byte set, and no other bit. |
| Vl53l0x.CalibrationWrites | index.js:305-309 | The calibration is three writes in order: the start value (Vl53l0x.StartValue for the sequence-config address and the VHV bits) to SYSRANGE_START, the sequence-config address to SYSTEM_INTERRUPT_CLEAR, and SYSRANGE_START's own address back to SYSRANGE_START. |
| Vl53l0x.CalibrationStartByte | index.js:306 | The first calibration write goes to SYSRANGE_START and, read back as a byte, is the start value, so it carries every VHV bit. |
| Vl53l0x.CalibrationEffect | index.js:305-309 | Afterwards SYSRANGE_START holds its stop value and the interrupt is cleared. No other register changes. |
| Vl53l0x.MsrcTimeoutByte | index.js:361 | The byte is ticks − 1, saturating at 255 above 256 ticks, and 0 for 0 ticks. |
| Vl53l0x.PreRangeWrites | index.js:347-364 | The pre-range branch's writes keep 256 registers; what they store is stated by Vl53l0x.PreRangeWritesEffect. |
| Vl53l0x.FinalRangeWrites | index.js:366-384 | The final-range branch's writes keep 256 registers; what they store is stated by Vl53l0x.FinalRangeWritesEffect. |
| Vl53l0x.PhaseCalibration | index.js:388-391 | The closing calibration keeps 256 registers; its effect is stated by Vl53l0x.PhaseCalibrationEffect. |
| Vl53l0x.StageWrites | index.js:345-384 | The writes of the chosen stage's branch keep 256 registers; their effect is stated by Vl53l0x.StageWritesApplyPeriod. |
| Vl53l0x.PreRangeWritesEffect | index.js:347-364 | The pre-range period reads back as p. The pre-range word and the MSRC byte hold the old durations converted at p. Only the two phase registers, the period, the word and the MSRC byte change. |
| Vl53l0x.FinalRangeWritesEffect | index.js:366-384 | The final-range period reads back as p, and the word holds the old final-range time at p plus the pre-range ticks. Only the listed phase, width, calibration, page, period and word registers change. |
| Vl53l0x.PhaseCalibrationEffect | index.js:388-391 | The saved sequence config is restored, and no register but SYSRANGE_START and SYSTEM_INTERRUPT_CLEAR changes. |
| Vl53l0x.Recalibrate | index.js:386-391 | The cached budget is applied again: it fails with the minimum-budget error exactly when that budget is below the minimum, and with "Requested timeout too big" exactly when the enabled final range plus the common budget and 550 µs overrun it. It can fail only with these two errors. The cached budget is kept. |
| Vl53l0x.RecalibrateFrame | index.js:386-391 | A successful recalibration changes only the final-range word, SYSRANGE_START and SYSTEM_INTERRUPT_CLEAR. |
| Vl53l0x.RecalibrateKeepsState | index.js:386-391 | Such a change keeps the sequence config, both period registers, the pre-range word and the MSRC byte. |
| Vl53l0x.StageWritesApplyPeriod | index.js:345-384 | The stage's writes keep the sequence config and set the stage's period. |
| Vl53l0x.ReconfigurePulsePeriod | index.js:321-391 | An invalid type, or an invalid pre or final period, is refused with its own error, and only then, with no register touched. A valid call ends done or with one of the two budget errors. It fails with the minimum-budget error exactly when the cached budget is below 20000. It fails with "Requested timeout too big" exactly when, on the registers after the stage writes, the enabled final range plus the common budget and 550 µs overrun the cached budget. The cached budget never changes. |
| Vl53l0x.ReconfigureAppliesPeriod | index.js:321-391 | After a successful call the sequence config is as before, and the stage's period register reads back the new period. |
| Vl53l0x.CalibrationKeepsMeasure | index.js:388-391 | The phase calibration leaves the measured budget unchanged. |
| Vl53l0x.ReconfigureThenMeasure | index.js:321-391 | After a successful period change with the final range on, the device measures the cached budget + 600 µs within one final-range macro period (of the new period for a final-range change) when the programmed timeout is exact, and never more than that for any timeout the encoder handles. |
| Vl53l0x.PreRangeRewriteKeepsTimeouts | index.js:347-363 | Rewriting the current pre-range period reprograms the same canonical pre-range word and the same MSRC byte. |
| Vl53l0x.ReconfigureSamePreRangePeriod | index.js:321-391 | Reconfiguring the pre-range with its current period keeps a canonical pre-range word and the MSRC byte. |
| Driver.Sensor.constructor | I2C-core.js:27-47 | A sensor starts with no cached budget (−1). |
| Driver.Sensor.WriteReg | I2C-core.js:96-108 | An 8-bit write stores the value's low byte in one register. |
| Driver.Sensor.WriteReg16 | I2C-core.js:96-108 | A 16-bit write stores [value >> 8, value & 0xFF] from the register on. |
| Driver.Sensor.ReadReg | I2C-core.js:127-134 | It returns the register's byte. |
| Driver.Sensor.ReadReg16 | I2C-core.js:127-131 | (b0 << 8) \| b1 is a 16-bit word equal to the packed read. |
| Driver.Sensor.GetVcselPulsePeriod | index.js:445-447 | It returns ((reg + 1) << 1), which re-encodes to the register. |
| Driver.Sensor.GetSequenceSteps | I2C-core.js:223-231 | The register reads give the sequence steps of the register file. |
| Driver.Sensor.GetBudget | I2C-core.js:234-241 | The reads give the budget reading of the register file. |
| Driver.Sensor.GetMeasurementTimingBudget | index.js:201-210 | It returns the measured budget of the register file. |
| Driver.Sensor.SetMeasurementTimingBudget | index.js:127-163 | Its outcome and new state are those of Vl53l0x.SetTimingBudget. |
| Driver.Sensor.RecalculateTimingBudget | index.js:104-111 | It caches the measured budget, writes 0xE8 (DSS, pre-range and final range on), and sets the cached budget again. |
| Driver.Sensor.PerformSingleRefCalibration | index.js:305-309 | The registers end as the three calibration writes leave them, and the cached budget is kept. |
| Driver.Sensor.WritePreRange | index.js:347-364 | The registers end as Vl53l0x.PreRangeWrites describes. |
| Driver.Sensor.WriteFinalRange | index.js:366-384 | The registers end as Vl53l0x.FinalRangeWrites describes. |
| Driver.Sensor.Recalibrate | index.js:386-391 | Its outcome and new state are those of Vl53l0x.Recalibrate. |
| Driver.Sensor.SetVcselPulsePeriod | index.js:321-391 | Its outcome and new state are those of Vl53l0x.ReconfigurePulsePeriod. |

## Left out

- The multi-device branches (no `pin`, a loop over every address) repeat the single-device code for each sensor. Only the single-device path is modelled.
- The I2C bus, its asynchrony and its errors, GPIO pins, `addressChange`, `init`, the options object, ranging reads, the signal-rate limit, the tuning table and the register settings of `setup` outside the SPAD loop and the budget steps are left out. They are I/O or constant tables the timing properties do not depend on.
- `_getSpadInfo`'s register script and `_readMulti`/`_writeMulti` are left out. The SPAD byte is an input to `I2CCore.SpadInfoOf`, and the map is the array `ReferenceSpads.FilterReferenceSpads` works on. `_writeMulti` sends a buffer filled with the register address instead of the map; that bus payload is not modelled.
- The register file is one page. Writes to the page-select register 0xFF are recorded like any other write, but the register banks they select are not modelled.
- What the device does when `SYSRANGE_START` starts a measurement is not modelled. A calibration is the three writes it makes.
- `calcMacroPeriod` and the two conversions use IEEE double arithmetic in the source; the model uses exact rationals, so floating-point rounding of the intermediate values is not captured.
- TimeoutCodec.DecodeTimeout: does not model JavaScript's 32-bit shift; the decoded value is exact, where `<<` by 24 or more overflows a 32-bit integer.
- TimeoutCodec.EncodeTimeout: does not model the 32-bit `&` and `>>=`; its loop guard `lsb >= 256` equals the source's for tick counts up to 2^31, and the lemmas about it assume that bound.
- Vl53l0x.ReconfigureThenMeasure: the lower bound is proved under the same condition as for SetThenMeasure.
- Vl53l0x.SetThenMeasure: the lower bound is proved only when the programmed tick count decodes back exactly (every count up to 256 does); for other counts the encoder rounds down and only the upper bound is proved.
