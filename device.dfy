/**
 * The device operations of the VL53L0X driver (index.js): setting and
 * measuring the timing budget, reconfiguring a pulse period, and the single
 * reference calibration.
 *
 * Each operation is specified by a function from the device state (its 256
 * registers and the cached timing budget) to an outcome and a new state; the
 * Sensor class performs the same operation write by write and is proved to end
 * in that state. The lemmas say what the operations achieve: what a budget
 * reads back as once it has been set, that setting it twice is setting it
 * once, that a reconfiguration applies its period, keeps the cache and
 * restores the sequence config, and that re-applying the current pre-range
 * period keeps its timeouts.
 */
module Vl53l0x {
  import opened Arithmetic
  import opened TimeoutCodec
  import opened ClockModel
  import opened Budget
  import opened I2CCore

  /** The smallest timing budget the driver accepts, in microseconds. */
  const MinTimingBudget := 20000

  const FinalRangeOverhead := 550

  /** Start and end overheads setMeasurementTimingBudget budgets for. */
  const SetOverhead := 1320 + 960

  /** Start and end overheads getMeasurementTimingBudgetInternal counts. */
  const GetOverhead := 1920 + 960

  /** The errors the operations throw. */
  datatype Error =
    | BudgetBelowMinimum
    | RequestedTimeoutTooBig
    | InvalidType
    | InvalidPrePeriod
    | InvalidFinalPeriod

  datatype Outcome = Done | Fault(error: Error)

  /** One device: its register file and its cached timing budget. */
  datatype Device = Device(registers: seq<Byte>, timingBudget: int)

  /** What an operation returns or throws, and the device it leaves behind. */
  datatype Step = Step(outcome: Outcome, device: Device)

  /**
   * A budget reading whose final-range pulse period is a period. The reading's
   * fields are plain integers; every reading taken from a register file has
   * this property (StepTimeouts makes the period at least 2), and the
   * conversion to ticks needs it to be stated where only a reading is at hand.
   */
  predicate HasFinalPeriod(reading: BudgetReading)
  {
    reading.timeouts.finalRangeVcselPeriodPclks >= 0
  }

  /**
   * The final-range timeout, in macro-clock ticks, that fills what is left of
   * budgetUs once the common budget and the final-range overhead are taken
   * out; the pre-range ticks are added when the pre-range is enabled, as the
   * timeout register counts them too.
   */
  function FinalRangeTimeoutMclks(reading: BudgetReading, budgetUs: int): int
    requires HasFinalPeriod(reading)
  {
    UsToMclks(budgetUs - (reading.value + FinalRangeOverhead), reading.timeouts.finalRangeVcselPeriodPclks)
    + (if reading.enables.preRange then reading.timeouts.preRangeMclks else 0)
  }

  /** The enables the device's sequence config holds. */
  function Enables(table: RegisterTable, registers: seq<Byte>): SequenceStepEnables
    requires table.Valid() && IsRegisterFile(registers)
  {
    StepEnables(registers[table.systemSequenceConfig])
  }

  /**
   * setMeasurementTimingBudget for one device. A budget below the minimum is
   * refused before anything is read; with the final range disabled nothing
   * happens; a budget the enabled stages already exceed is refused; otherwise
   * the final-range timeout is programmed to fill the budget, which is cached.
   */
  function SetTimingBudget(table: RegisterTable, d: Device, budgetUs: int): (s: Step)
    requires table.Valid() && IsRegisterFile(d.registers)
    ensures IsRegisterFile(s.device.registers)
    ensures s.outcome in {Done, Fault(BudgetBelowMinimum), Fault(RequestedTimeoutTooBig)}
    ensures s.outcome == Fault(BudgetBelowMinimum) <==> budgetUs < MinTimingBudget
    ensures s.outcome == Fault(RequestedTimeoutTooBig) <==>
      budgetUs >= MinTimingBudget && Enables(table, d.registers).finalRange &&
      BudgetOf(table, d.registers, SetOverhead).value + FinalRangeOverhead > budgetUs
    ensures s.outcome.Fault? || !Enables(table, d.registers).finalRange ==> s.device == d
    ensures s.outcome.Done? && Enables(table, d.registers).finalRange ==>
      var reading := BudgetOf(table, d.registers, SetOverhead);
      s.device == Device(Write16(d.registers, table.finalRangeConfigTimeoutMacropHi,
                                 TimeoutEncoding(FinalRangeTimeoutMclks(reading, budgetUs))), budgetUs) &&
      forall a: Address :: a != table.finalRangeConfigTimeoutMacropHi && a != table.finalRangeConfigTimeoutMacropHi + 1 ==>
        s.device.registers[a] == d.registers[a]
  {
    if budgetUs < MinTimingBudget then Step(Fault(BudgetBelowMinimum), d)
    else
      var reading := BudgetOf(table, d.registers, SetOverhead);
      if !reading.enables.finalRange then Step(Done, d)
      else if reading.value + FinalRangeOverhead > budgetUs then Step(Fault(RequestedTimeoutTooBig), d)
      else
        var word := TimeoutEncoding(FinalRangeTimeoutMclks(reading, budgetUs));
        Register16RoundTrip(d.registers, table.finalRangeConfigTimeoutMacropHi, word);
        Step(Done, Device(Write16(d.registers, table.finalRangeConfigTimeoutMacropHi, word), budgetUs))
  }

  /**
   * getMeasurementTimingBudgetInternal: the common budget over the larger
   * start and end overheads, plus the final-range time and overhead when the
   * final range is enabled.
   */
  function MeasuredBudget(table: RegisterTable, registers: seq<Byte>): int
    requires table.Valid() && IsRegisterFile(registers)
  {
    var reading := BudgetOf(table, registers, GetOverhead);
    if reading.enables.finalRange then reading.value + reading.timeouts.finalRangeUs + FinalRangeOverhead
    else reading.value
  }

  /**
   * The measured budget is the start and end overhead, the time of every
   * enabled stage before the final range, and the final-range time and
   * overhead when the final range is enabled.
   */
  lemma MeasuredBudgetStages(table: RegisterTable, registers: seq<Byte>)
    requires table.Valid() && IsRegisterFile(registers)
    ensures var steps := SequenceStepsOf(table, registers);
      MeasuredBudget(table, registers) == GetOverhead + StageTime(steps.enables, steps.timeouts)
        + (if steps.enables.finalRange then steps.timeouts.finalRangeUs + FinalRangeOverhead else 0)
  {
  }

  /** A 16-bit register keeps the two low bytes of a word, which is all the timeout format reads. */
  lemma DecodeIgnoresHighBits(word: int)
    ensures DecodeTimeout(word % 65536) == DecodeTimeout(word)
  {
    var q, r := word / 65536, word % 65536;
    var hi, lo := r / 256, r % 256;
    DivUnique(r, 256, hi, lo);
    DivUnique(hi, 256, 0, hi);
    assert word == (256 * q + hi) * 256 + lo;
    DivUnique(word, 256, 256 * q + hi, lo);
    DivUnique(word / 256, 256, q, hi);
  }

  /**
   * Writing the final-range timeout register changes, of the sequence steps,
   * nothing but the final-range ticks and microseconds, which become what the
   * written word decodes to.
   */
  lemma FinalWordWrite(table: RegisterTable, registers: seq<Byte>, word: int)
    requires table.Valid() && IsRegisterFile(registers)
    ensures var before := SequenceStepsOf(table, registers);
      var after := SequenceStepsOf(table, Write16(registers, table.finalRangeConfigTimeoutMacropHi, word));
      var finalMclks := DecodeTimeout(word) - (if before.enables.preRange then before.timeouts.preRangeMclks else 0);
      after.enables == before.enables &&
      after.timeouts == before.timeouts.(
        finalRangeMclks := finalMclks,
        finalRangeUs := MclksToUs(finalMclks, before.timeouts.finalRangeVcselPeriodPclks))
  {
    var t := table;
    var written := Write16(registers, t.finalRangeConfigTimeoutMacropHi, word);
    Register16RoundTrip(registers, t.finalRangeConfigTimeoutMacropHi, word);
    DecodeIgnoresHighBits(word);
    assert t.Valid();
    var a := t.StateRegisters();
    assert a[0] != a[8] && a[0] != a[9] && a[3] != a[8] && a[3] != a[9] && a[4] != a[8] && a[4] != a[9];
    assert a[5] != a[8] && a[5] != a[9] && a[6] != a[8] && a[6] != a[9] && a[7] != a[8] && a[7] != a[9];
    assert Read16(written, t.preRangeConfigTimeoutMacropHi) == Read16(registers, t.preRangeConfigTimeoutMacropHi);
  }

  /**
   * With the final range enabled, the budget measured once a final-range word
   * is written is the common budget the setting reads, plus the 600 us of
   * extra start overhead, plus the final-range time the word decodes to.
   */
  lemma MeasureAfterFinalWrite(table: RegisterTable, registers: seq<Byte>, word: int)
    requires table.Valid() && IsRegisterFile(registers) && Enables(table, registers).finalRange
    ensures var reading := BudgetOf(table, registers, SetOverhead);
      var pre := if reading.enables.preRange then reading.timeouts.preRangeMclks else 0;
      MeasuredBudget(table, Write16(registers, table.finalRangeConfigTimeoutMacropHi, word))
        == reading.value + (GetOverhead - SetOverhead)
           + MclksToUs(DecodeTimeout(word) - pre, reading.timeouts.finalRangeVcselPeriodPclks) + FinalRangeOverhead
  {
    FinalWordWrite(table, registers, word);
    MeasuredBudgetStages(table, Write16(registers, table.finalRangeConfigTimeoutMacropHi, word));
  }

  /**
   * The final-range time read back from the word programmed for `left`
   * microseconds (plus `pre` pre-range ticks) is never more than `left` plus
   * one macro period's worth of rounding, and, when the word is exact, never
   * less than `left`.
   */
  lemma FinalTimeRounding(left: int, pre: int, p: nat, mclks: int)
    requires left >= 0 && pre >= 0 && mclks == UsToMclks(left, p) + pre
    ensures var us := MclksToUs(DecodeTimeout(TimeoutEncoding(mclks)) - pre, p);
      var slack := MacroPeriodPs(p) / 1000000;
      (1 <= mclks <= 0x8000_0000 ==> us <= left + slack) &&
      (DecodeTimeout(TimeoutEncoding(mclks)) == mclks ==> left <= us <= left + slack)
  {
    UsRoundTrip(left, p);
    if 1 <= mclks <= 0x8000_0000 {
      DecodeEncodeWithinPrecision(mclks);
      MclksToUsMonotonic(DecodeTimeout(TimeoutEncoding(mclks)) - pre, UsToMclks(left, p), p);
    }
  }

  /**
   * Setting a budget and then measuring it does not give the budget back: the
   * measurement counts 600 us more start overhead than the setting did. When
   * the programmed timeout is exactly representable the measurement is the
   * budget plus 600 us plus the rounding of at most one macro period; in any
   * case it is no more than that.
   */
  lemma SetThenMeasure(table: RegisterTable, d: Device, budgetUs: int)
    requires table.Valid() && IsRegisterFile(d.registers)
    requires Enables(table, d.registers).finalRange && budgetUs >= MinTimingBudget
    requires BudgetOf(table, d.registers, SetOverhead).value + FinalRangeOverhead <= budgetUs
    ensures var reading := BudgetOf(table, d.registers, SetOverhead);
      var mclks := FinalRangeTimeoutMclks(reading, budgetUs);
      var measured := MeasuredBudget(table, SetTimingBudget(table, d, budgetUs).device.registers);
      var slack := MacroPeriodPs(reading.timeouts.finalRangeVcselPeriodPclks) / 1000000;
      (1 <= mclks <= 0x8000_0000 ==> measured <= budgetUs + (GetOverhead - SetOverhead) + slack) &&
      (DecodeTimeout(TimeoutEncoding(mclks)) == mclks ==>
        budgetUs + (GetOverhead - SetOverhead) <= measured <= budgetUs + (GetOverhead - SetOverhead) + slack)
  {
    MeasureProgrammed(table, d.registers, budgetUs);
  }

  /** SetThenMeasure over the register file the setting programs. */
  lemma MeasureProgrammed(table: RegisterTable, registers: seq<Byte>, budgetUs: int)
    requires table.Valid() && IsRegisterFile(registers)
    requires Enables(table, registers).finalRange
    requires BudgetOf(table, registers, SetOverhead).value + FinalRangeOverhead <= budgetUs
    ensures var reading := BudgetOf(table, registers, SetOverhead);
      var mclks := FinalRangeTimeoutMclks(reading, budgetUs);
      var measured := MeasuredBudget(table, Write16(registers, table.finalRangeConfigTimeoutMacropHi, TimeoutEncoding(mclks)));
      var slack := MacroPeriodPs(reading.timeouts.finalRangeVcselPeriodPclks) / 1000000;
      (1 <= mclks <= 0x8000_0000 ==> measured <= budgetUs + (GetOverhead - SetOverhead) + slack) &&
      (DecodeTimeout(TimeoutEncoding(mclks)) == mclks ==>
        budgetUs + (GetOverhead - SetOverhead) <= measured <= budgetUs + (GetOverhead - SetOverhead) + slack)
  {
    var reading := BudgetOf(table, registers, SetOverhead);
    assert HasFinalPeriod(reading) && reading.timeouts.preRangeMclks >= 0;
    var word := TimeoutEncoding(FinalRangeTimeoutMclks(reading, budgetUs));
    var measured := MeasuredBudget(table, Write16(registers, table.finalRangeConfigTimeoutMacropHi, word));
    MeasureAfterFinalWrite(table, registers, word);
    MeasureFromReading(reading, budgetUs, measured);
  }

  /** MeasureProgrammed over the budget reading alone. */
  lemma MeasureFromReading(reading: BudgetReading, budgetUs: int, measured: int)
    requires HasFinalPeriod(reading) && reading.timeouts.preRangeMclks >= 0
    requires reading.value + FinalRangeOverhead <= budgetUs
    requires var pre := if reading.enables.preRange then reading.timeouts.preRangeMclks else 0;
      var word := TimeoutEncoding(FinalRangeTimeoutMclks(reading, budgetUs));
      measured == reading.value + (GetOverhead - SetOverhead)
        + MclksToUs(DecodeTimeout(word) - pre, reading.timeouts.finalRangeVcselPeriodPclks) + FinalRangeOverhead
    ensures var mclks := FinalRangeTimeoutMclks(reading, budgetUs);
      var slack := MacroPeriodPs(reading.timeouts.finalRangeVcselPeriodPclks) / 1000000;
      (1 <= mclks <= 0x8000_0000 ==> measured <= budgetUs + (GetOverhead - SetOverhead) + slack) &&
      (DecodeTimeout(TimeoutEncoding(mclks)) == mclks ==>
        budgetUs + (GetOverhead - SetOverhead) <= measured <= budgetUs + (GetOverhead - SetOverhead) + slack)
  {
    var p: nat := reading.timeouts.finalRangeVcselPeriodPclks;
    var pre := if reading.enables.preRange then reading.timeouts.preRangeMclks else 0;
    var left := budgetUs - (reading.value + FinalRangeOverhead);
    var mclks := FinalRangeTimeoutMclks(reading, budgetUs);
    var word := TimeoutEncoding(mclks);
    var us := MclksToUs(DecodeTimeout(word) - pre, p);
    var slack := MacroPeriodPs(p) / 1000000;
    assert mclks == UsToMclks(left, p) + pre;
    FinalTimeRounding(left, pre, p, mclks);
    MeasuredWithinSlack(measured, budgetUs, left, us, slack, DecodeTimeout(word) == mclks, 1 <= mclks <= 0x8000_0000);
  }

  /** The arithmetic of SetThenMeasure: the rounding of the final-range time is the rounding of the measurement. */
  lemma MeasuredWithinSlack(measured: int, budgetUs: int, left: int, us: int, slack: int, exact: bool, bounded: bool)
    requires measured == budgetUs - left + (GetOverhead - SetOverhead) + us
    requires bounded ==> us <= left + slack
    requires exact ==> left <= us <= left + slack
    ensures bounded ==> measured <= budgetUs + (GetOverhead - SetOverhead) + slack
    ensures exact ==> budgetUs + (GetOverhead - SetOverhead) <= measured <= budgetUs + (GetOverhead - SetOverhead) + slack
  {
  }

  /** Writing the same word twice to a 16-bit register is writing it once. */
  lemma Write16Twice(registers: seq<Byte>, register: Address, word: int)
    requires IsRegisterFile(registers) && register < 255
    ensures Write16(Write16(registers, register, word), register, word) == Write16(registers, register, word)
  {
  }

  /**
   * Setting the same budget twice is setting it once: the second call reads
   * the same common budget and programs the same word, since the final-range
   * timeout is not part of the common budget.
   */
  lemma SetTimingBudgetIdempotent(table: RegisterTable, d: Device, budgetUs: int)
    requires table.Valid() && IsRegisterFile(d.registers)
    ensures var s := SetTimingBudget(table, d, budgetUs);
      SetTimingBudget(table, s.device, budgetUs) == s
  {
    var s := SetTimingBudget(table, d, budgetUs);
    if s.outcome.Done? && Enables(table, d.registers).finalRange {
      var reading := BudgetOf(table, d.registers, SetOverhead);
      var word := TimeoutEncoding(FinalRangeTimeoutMclks(reading, budgetUs));
      FinalWordWrite(table, d.registers, word);
      var again := BudgetOf(table, s.device.registers, SetOverhead);
      assert again.value == reading.value;
      assert FinalRangeTimeoutMclks(again, budgetUs) == FinalRangeTimeoutMclks(reading, budgetUs);
      Write16Twice(d.registers, table.finalRangeConfigTimeoutMacropHi, word);
    }
  }

  /** The 0xE8 setup writes to the sequence config enables DSS, the pre-range and the final range only. */
  lemma SetupSequenceConfig()
    ensures StepEnables(0xE8) == SequenceStepEnables(msrc := false, dss := true, tcc := false, preRange := true, finalRange := true)
  {
  }

  /** One write of one register. */
  datatype RegisterWrite = RegisterWrite(register: Address, value: Byte)

  /** No write after the k-th names the k-th's register: the k-th write is the last to it. */
  predicate LastWriteTo(writes: seq<RegisterWrite>, k: int)
    requires 0 <= k < |writes|
  {
    forall j :: k < j < |writes| ==> writes[j].register != writes[k].register
  }

  /** The register file after a sequence of writes, in order: a register keeps the value of the last write to it. */
  function ApplyWrites(registers: seq<Byte>, writes: seq<RegisterWrite>): (r: seq<Byte>)
    requires IsRegisterFile(registers)
    ensures IsRegisterFile(r)
    ensures forall a: Address :: (forall k :: 0 <= k < |writes| ==> writes[k].register != a) ==> r[a] == registers[a]
    ensures forall k :: 0 <= k < |writes| && LastWriteTo(writes, k) ==> r[writes[k].register] == writes[k].value
    decreases |writes|
  {
    if writes == [] then registers
    else ApplyWrites(Write8(registers, writes[0].register, writes[0].value), writes[1..])
  }

  /**
   * The byte written to start the calibration: the VHV bits or'ed with
   * config, which the source takes from REG.SYSTEM_SEQUENCE_CONFIG, the
   * address used as a value.
   */
  function StartValue(config: bv8, vhvInitByte: bv8): (start: bv8)
    ensures start & vhvInitByte == vhvInitByte && start & config == config
    ensures start & !(config | vhvInitByte) == 0
  {
    config | vhvInitByte
  }

  /**
   * performSingleRefCalibrationInternal's three writes: start a measurement
   * with the given VHV bits, clear the interrupt, and stop.
   */
  function CalibrationWrites(table: RegisterTable, vhvInitByte: bv8): (writes: seq<RegisterWrite>)
    ensures |writes| == 3
    ensures writes[0] == RegisterWrite(table.sysrangeStart, StartValue(table.systemSequenceConfig as bv8, vhvInitByte) as int)
    ensures writes[1] == RegisterWrite(table.systemInterruptClear, table.systemSequenceConfig)
    ensures writes[2] == RegisterWrite(table.sysrangeStart, table.sysrangeStart)
  {
    [RegisterWrite(table.sysrangeStart, StartValue(table.systemSequenceConfig as bv8, vhvInitByte) as int),
     RegisterWrite(table.systemInterruptClear, table.systemSequenceConfig),
     RegisterWrite(table.sysrangeStart, table.sysrangeStart)]
  }

  /** The first calibration write, read back as a byte, is the start value. */
  lemma CalibrationStartByte(table: RegisterTable, vhvInitByte: bv8)
    ensures var w := CalibrationWrites(table, vhvInitByte)[0];
      w.register == table.sysrangeStart && w.value as bv8 == StartValue(table.systemSequenceConfig as bv8, vhvInitByte)
  {
    var start := StartValue(table.systemSequenceConfig as bv8, vhvInitByte);
    ByteRoundTrip(start);
  }

  lemma ByteRoundTrip(b: bv8)
    ensures (b as int) as bv8 == b
  {
  }

  /**
   * The calibration ends with the start register back at its stop value and
   * the interrupt cleared; it touches no register but SYSRANGE_START and
   * SYSTEM_INTERRUPT_CLEAR.
   */
  lemma CalibrationEffect(table: RegisterTable, registers: seq<Byte>, vhvInitByte: bv8)
    requires table.Valid() && IsRegisterFile(registers)
    ensures var r := ApplyWrites(registers, CalibrationWrites(table, vhvInitByte));
      r[table.sysrangeStart] == table.sysrangeStart &&
      r[table.systemInterruptClear] == table.systemSequenceConfig &&
      forall a: Address :: a != table.sysrangeStart && a != table.systemInterruptClear ==> r[a] == registers[a]
  {
    var writes := CalibrationWrites(table, vhvInitByte);
    var r1 := Write8(registers, table.sysrangeStart, writes[0].value);
    var r2 := Write8(r1, table.systemInterruptClear, table.systemSequenceConfig);
    var r3 := Write8(r2, table.sysrangeStart, table.sysrangeStart);
    assert ApplyWrites(r2, writes[2..]) == ApplyWrites(r3, []) == r3;
    assert ApplyWrites(r1, writes[1..]) == ApplyWrites(r2, writes[2..]);
    assert ApplyWrites(registers, writes) == ApplyWrites(r1, writes[1..]);
    var a := table.StateRegisters();
    assert table.Valid();
    assert a[1] != a[2];
  }

  /** The register setVcselPulsePeriod writes 0x18 to, for each valid pre-range period. */
  const PrePhaseRegisters: map<int, Address> := map[12 := 0x18, 14 := 0x30, 16 := 0x40, 18 := 0x50]

  /**
   * The final-range phase high value, VCSEL width, phase calibration timeout
   * and phase calibration limit, for each valid final-range period.
   */
  const FinalPhaseArgs: map<int, seq<Byte>> := map[
    8 := [0x10, 0x02, 0x0c, 0x30],
    10 := [0x28, 0x03, 0x09, 0x20],
    12 := [0x38, 0x03, 0x08, 0x20],
    14 := [0x48, 0x03, 0x07, 0x20]]

  /** The stage name and pulse period setVcselPulsePeriod accepts. */
  predicate ValidPulsePeriod(stage: string, periodPclks: int)
  {
    (stage == "pre" && periodPclks in PrePhaseRegisters) || (stage == "final" && periodPclks in FinalPhaseArgs)
  }

  /**
   * The byte written to MSRC_CONFIG_TIMEOUT_MACROP for a timeout of mclks
   * ticks: 255 above 256 ticks, else mclks - 1. The source subtracts from an
   * unrounded tick count, so the 0 ticks of a timeout under half a macro
   * period stand for a value in (-1, 0), which the byte write truncates to 0.
   */
  function MsrcTimeoutByte(mclks: int): (b: Byte)
    requires mclks >= 0
    ensures mclks >= 1 ==> b + 1 == if mclks < 256 then mclks else 256
    ensures mclks == 0 ==> b == 0
  {
    if mclks > 256 then 255 else if mclks == 0 then 0 else mclks - 1
  }

  /** The pre-range branch of setVcselPulsePeriod: the writes that apply the period and rescale the timeouts. */
  function PreRangeWrites(table: RegisterTable, registers: seq<Byte>, periodPclks: int, timeouts: SequenceStepTimeouts): (r: seq<Byte>)
    requires table.Valid() && IsRegisterFile(registers) && periodPclks in PrePhaseRegisters
    requires timeouts.msrcDssTccUs >= 0
    ensures IsRegisterFile(r)
  {
    var newPreRangeMclks := UsToMclks(timeouts.preRangeUs, periodPclks);
    var newMsrcMclks := UsToMclks(timeouts.msrcDssTccUs, periodPclks);
    UsToMclksMonotonic(0, timeouts.msrcDssTccUs, periodPclks);
    var phase := Write8(registers, PrePhaseRegisters[periodPclks], 0x18);
    var phaseLow := Write8(phase, table.preRangeConfigValidPhaseLow, 0x08);
    var period := Write8(phaseLow, table.preRangeConfigVcselPeriod, EncodeVcselPeriod(periodPclks));
    var timeout := Write16(period, table.preRangeConfigTimeoutMacropHi, TimeoutEncoding(newPreRangeMclks));
    Write8(timeout, table.msrcConfigTimeoutMacrop, MsrcTimeoutByte(newMsrcMclks))
  }

  /** The final-range branch of setVcselPulsePeriod: the phase and calibration settings, the period and the timeout. */
  function FinalRangeWrites(table: RegisterTable, registers: seq<Byte>, periodPclks: int, steps: SequenceSteps): (r: seq<Byte>)
    requires table.Valid() && IsRegisterFile(registers) && periodPclks in FinalPhaseArgs
    ensures IsRegisterFile(r)
  {
    var newFinalRangeMclks := UsToMclks(steps.timeouts.finalRangeUs, periodPclks)
      + (if steps.enables.preRange then steps.timeouts.preRangeMclks else 0);
    var args := FinalPhaseArgs[periodPclks];
    var phaseHigh := Write8(registers, table.finalRangeConfigValidPhaseHigh, args[0]);
    var phaseLow := Write8(phaseHigh, table.finalRangeConfigValidPhaseLow, 0x08);
    var width := Write8(phaseLow, table.globalConfigVcselWidth, args[1]);
    var phasecalTimeout := Write8(width, table.algoPhasecalConfigTimeout, args[2]);
    var page1 := Write8(phasecalTimeout, 0xFF, 0x01);
    var phasecalLim := Write8(page1, table.algoPhasecalLim, args[3]);
    var page0 := Write8(phasecalLim, 0xFF, 0x00);
    var period := Write8(page0, table.finalRangeConfigVcselPeriod, EncodeVcselPeriod(periodPclks));
    Write16(period, table.finalRangeConfigTimeoutMacropHi, TimeoutEncoding(newFinalRangeMclks))
  }

  /**
   * The calibration that closes a reconfiguration: the sequence config is
   * saved, set to 0x02 for a phase calibration, and restored.
   */
  function PhaseCalibration(table: RegisterTable, registers: seq<Byte>): (r: seq<Byte>)
    requires table.Valid() && IsRegisterFile(registers)
    ensures IsRegisterFile(r)
  {
    var sequenceConfig := registers[table.systemSequenceConfig];
    var phase := Write8(registers, table.systemSequenceConfig, 0x02);
    Write8(ApplyWrites(phase, CalibrationWrites(table, table.sysrangeStart as bv8)), table.systemSequenceConfig, sequenceConfig)
  }

  /**
   * The pre-range writes apply the period, program the pre-range timeout and
   * the MSRC byte for the old durations at the new period, and touch no
   * register but those and the two phase registers.
   */
  lemma PreRangeWritesEffect(table: RegisterTable, registers: seq<Byte>, periodPclks: int, timeouts: SequenceStepTimeouts)
    requires table.Valid() && IsRegisterFile(registers) && periodPclks in PrePhaseRegisters
    requires timeouts.msrcDssTccUs >= 0
    ensures var r := PreRangeWrites(table, registers, periodPclks, timeouts);
      VcselPeriodFromRegister(r[table.preRangeConfigVcselPeriod]) == periodPclks &&
      Read16(r, table.preRangeConfigTimeoutMacropHi) == TimeoutEncoding(UsToMclks(timeouts.preRangeUs, periodPclks)) % 65536 &&
      r[table.msrcConfigTimeoutMacrop] == MsrcTimeoutByte(UsToMclks(timeouts.msrcDssTccUs, periodPclks)) &&
      forall a: Address :: a !in {PrePhaseRegisters[periodPclks], table.preRangeConfigValidPhaseLow,
                                  table.preRangeConfigVcselPeriod, table.preRangeConfigTimeoutMacropHi,
                                  table.preRangeConfigTimeoutMacropHi + 1, table.msrcConfigTimeoutMacrop} ==>
        r[a] == registers[a]
  {
    var t := table;
    var newPreRangeMclks := UsToMclks(timeouts.preRangeUs, periodPclks);
    UsToMclksMonotonic(0, timeouts.msrcDssTccUs, periodPclks);
    var phase := Write8(registers, PrePhaseRegisters[periodPclks], 0x18);
    var phaseLow := Write8(phase, t.preRangeConfigValidPhaseLow, 0x08);
    var period := Write8(phaseLow, t.preRangeConfigVcselPeriod, EncodeVcselPeriod(periodPclks));
    var timeout := Write16(period, t.preRangeConfigTimeoutMacropHi, TimeoutEncoding(newPreRangeMclks));
    Register16RoundTrip(period, t.preRangeConfigTimeoutMacropHi, TimeoutEncoding(newPreRangeMclks));
    var a := t.StateRegisters();
    assert a[3] != a[4] && a[3] != a[5] && a[3] != a[6] && a[4] != a[5] && a[4] != a[6];
  }

  /**
   * The final-range writes apply the period and program the final-range
   * timeout for the old duration at the new period, and touch no register
   * but those, the phase and calibration settings and the page select.
   */
  lemma FinalRangeWritesEffect(table: RegisterTable, registers: seq<Byte>, periodPclks: int, steps: SequenceSteps)
    requires table.Valid() && IsRegisterFile(registers) && periodPclks in FinalPhaseArgs
    ensures var r := FinalRangeWrites(table, registers, periodPclks, steps);
      VcselPeriodFromRegister(r[table.finalRangeConfigVcselPeriod]) == periodPclks &&
      Read16(r, table.finalRangeConfigTimeoutMacropHi)
        == TimeoutEncoding(UsToMclks(steps.timeouts.finalRangeUs, periodPclks)
                           + (if steps.enables.preRange then steps.timeouts.preRangeMclks else 0)) % 65536 &&
      forall a: Address :: a !in {table.finalRangeConfigValidPhaseHigh, table.finalRangeConfigValidPhaseLow,
                                  table.globalConfigVcselWidth, table.algoPhasecalConfigTimeout, 0xFF,
                                  table.algoPhasecalLim, table.finalRangeConfigVcselPeriod,
                                  table.finalRangeConfigTimeoutMacropHi, table.finalRangeConfigTimeoutMacropHi + 1} ==>
        r[a] == registers[a]
  {
    var t := table;
    var word := TimeoutEncoding(UsToMclks(steps.timeouts.finalRangeUs, periodPclks)
                                + (if steps.enables.preRange then steps.timeouts.preRangeMclks else 0));
    var args := FinalPhaseArgs[periodPclks];
    var phaseHigh := Write8(registers, t.finalRangeConfigValidPhaseHigh, args[0]);
    var phaseLow := Write8(phaseHigh, t.finalRangeConfigValidPhaseLow, 0x08);
    var width := Write8(phaseLow, t.globalConfigVcselWidth, args[1]);
    var phasecalTimeout := Write8(width, t.algoPhasecalConfigTimeout, args[2]);
    var page1 := Write8(phasecalTimeout, 0xFF, 0x01);
    var phasecalLim := Write8(page1, t.algoPhasecalLim, args[3]);
    var page0 := Write8(phasecalLim, 0xFF, 0x00);
    var period := Write8(page0, t.finalRangeConfigVcselPeriod, EncodeVcselPeriod(periodPclks));
    Register16RoundTrip(period, t.finalRangeConfigTimeoutMacropHi, word);
    var a := t.StateRegisters();
    assert a[7] != a[8] && a[7] != a[9];
  }

  /**
   * The phase calibration leaves the sequence config as it found it and
   * changes no register but SYSRANGE_START and SYSTEM_INTERRUPT_CLEAR.
   */
  lemma PhaseCalibrationEffect(table: RegisterTable, registers: seq<Byte>)
    requires table.Valid() && IsRegisterFile(registers)
    ensures var r := PhaseCalibration(table, registers);
      r[table.systemSequenceConfig] == registers[table.systemSequenceConfig] &&
      forall a: Address :: a != table.sysrangeStart && a != table.systemInterruptClear ==> r[a] == registers[a]
  {
    var phase := Write8(registers, table.systemSequenceConfig, 0x02);
    var calibrated := ApplyWrites(phase, CalibrationWrites(table, table.sysrangeStart as bv8));
    CalibrationEffect(table, phase, table.sysrangeStart as bv8);
    var r := Write8(calibrated, table.systemSequenceConfig, registers[table.systemSequenceConfig]);
    assert PhaseCalibration(table, registers) == r;
    var a := table.StateRegisters();
    assert a[0] != a[1] && a[0] != a[2];
    forall b: Address | b != table.sysrangeStart && b != table.systemInterruptClear
      ensures r[b] == registers[b]
    {
      if b != table.systemSequenceConfig {
        assert r[b] == calibrated[b] == phase[b];
      }
    }
  }

  /** The registers a reconfiguration has written before it applies the budget again. */
  function StageWrites(table: RegisterTable, registers: seq<Byte>, stage: string, periodPclks: int): (r: seq<Byte>)
    requires table.Valid() && IsRegisterFile(registers) && ValidPulsePeriod(stage, periodPclks)
    ensures IsRegisterFile(r)
  {
    var steps := SequenceStepsOf(table, registers);
    if stage == "pre" then PreRangeWrites(table, registers, periodPclks, steps.timeouts)
    else FinalRangeWrites(table, registers, periodPclks, steps)
  }

  /**
   * The end of a reconfiguration: the cached budget is applied again (its
   * failure is the operation's, after the writes), then a phase calibration
   * is run around a saved sequence config.
   */
  function Recalibrate(table: RegisterTable, d: Device): (s: Step)
    requires table.Valid() && IsRegisterFile(d.registers)
    ensures IsRegisterFile(s.device.registers)
    ensures s.outcome in {Done, Fault(BudgetBelowMinimum), Fault(RequestedTimeoutTooBig)}
    ensures s.outcome == Fault(BudgetBelowMinimum) <==> d.timingBudget < MinTimingBudget
    ensures s.outcome == Fault(RequestedTimeoutTooBig) <==>
      d.timingBudget >= MinTimingBudget && Enables(table, d.registers).finalRange &&
      BudgetOf(table, d.registers, SetOverhead).value + FinalRangeOverhead > d.timingBudget
    ensures s.device.timingBudget == d.timingBudget
  {
    var budget := SetTimingBudget(table, d, d.timingBudget);
    if budget.outcome.Fault? then budget
    else Step(Done, Device(PhaseCalibration(table, budget.device.registers), d.timingBudget))
  }

  /**
   * setVcselPulsePeriod for one device. The stage and period are validated
   * before any register is touched; then the stage's writes are made and the
   * device is recalibrated.
   */
  function ReconfigurePulsePeriod(table: RegisterTable, d: Device, stage: string, periodPclks: int): (s: Step)
    requires table.Valid() && IsRegisterFile(d.registers)
    ensures IsRegisterFile(s.device.registers)
    ensures s.outcome == Fault(InvalidType) <==> stage != "pre" && stage != "final"
    ensures s.outcome == Fault(InvalidPrePeriod) <==> stage == "pre" && periodPclks !in PrePhaseRegisters
    ensures s.outcome == Fault(InvalidFinalPeriod) <==> stage == "final" && periodPclks !in FinalPhaseArgs
    ensures !ValidPulsePeriod(stage, periodPclks) ==> s.device == d
    ensures ValidPulsePeriod(stage, periodPclks) ==>
      s.outcome in {Done, Fault(BudgetBelowMinimum), Fault(RequestedTimeoutTooBig)}
    ensures s.outcome == Fault(BudgetBelowMinimum) <==> ValidPulsePeriod(stage, periodPclks) && d.timingBudget < MinTimingBudget
    ensures s.outcome == Fault(RequestedTimeoutTooBig) <==>
      ValidPulsePeriod(stage, periodPclks) && d.timingBudget >= MinTimingBudget &&
      (var written := StageWrites(table, d.registers, stage, periodPclks);
       Enables(table, written).finalRange &&
       BudgetOf(table, written, SetOverhead).value + FinalRangeOverhead > d.timingBudget)
    ensures s.device.timingBudget == d.timingBudget
  {
    if stage != "pre" && stage != "final" then Step(Fault(InvalidType), d)
    else if stage == "pre" && periodPclks !in PrePhaseRegisters then Step(Fault(InvalidPrePeriod), d)
    else if stage == "final" && periodPclks !in FinalPhaseArgs then Step(Fault(InvalidFinalPeriod), d)
    else Recalibrate(table, Device(StageWrites(table, d.registers, stage, periodPclks), d.timingBudget))
  }

  /** Every register but the final-range timeout, SYSRANGE_START and SYSTEM_INTERRUPT_CLEAR is the same in both files. */
  predicate RecalibrateKeeps(table: RegisterTable, before: seq<Byte>, after: seq<Byte>)
    requires IsRegisterFile(before) && IsRegisterFile(after)
  {
    forall a: Address ::
      (a != table.finalRangeConfigTimeoutMacropHi && a != table.finalRangeConfigTimeoutMacropHi + 1 &&
       a != table.sysrangeStart && a != table.systemInterruptClear) ==> after[a] == before[a]
  }

  /** The sequence config and both period registers survive a recalibration. */
  lemma RecalibrateKeepsState(table: RegisterTable, before: seq<Byte>, after: seq<Byte>)
    requires table.Valid() && IsRegisterFile(before) && IsRegisterFile(after)
    requires RecalibrateKeeps(table, before, after)
    ensures after[table.systemSequenceConfig] == before[table.systemSequenceConfig]
    ensures after[table.preRangeConfigVcselPeriod] == before[table.preRangeConfigVcselPeriod]
    ensures after[table.finalRangeConfigVcselPeriod] == before[table.finalRangeConfigVcselPeriod]
    ensures Read16(after, table.preRangeConfigTimeoutMacropHi) == Read16(before, table.preRangeConfigTimeoutMacropHi)
    ensures after[table.msrcConfigTimeoutMacrop] == before[table.msrcConfigTimeoutMacrop]
  {
    var a := table.StateRegisters();
    assert a[3] != a[8] && a[3] != a[9] && a[3] != a[1] && a[3] != a[2];
    assert a[5] != a[8] && a[5] != a[9] && a[5] != a[1] && a[5] != a[2];
    assert a[6] != a[8] && a[6] != a[9] && a[6] != a[1] && a[6] != a[2];
    assert a[0] != a[8] && a[0] != a[9] && a[0] != a[1] && a[0] != a[2];
    assert a[4] != a[8] && a[4] != a[9] && a[4] != a[1] && a[4] != a[2];
    assert a[7] != a[8] && a[7] != a[9] && a[7] != a[1] && a[7] != a[2];
  }

  /**
   * A successful recalibration changes no register but the final-range
   * timeout, SYSRANGE_START and SYSTEM_INTERRUPT_CLEAR.
   */
  lemma RecalibrateFrame(table: RegisterTable, d: Device)
    requires table.Valid() && IsRegisterFile(d.registers)
    requires Recalibrate(table, d).outcome.Done?
    ensures var r := Recalibrate(table, d).device.registers;
      RecalibrateKeeps(table, d.registers, r)
  {
    var budget := SetTimingBudget(table, d, d.timingBudget);
    PhaseCalibrationEffect(table, budget.device.registers);
  }

  /** The stage's writes leave the sequence config alone and set the stage's period register. */
  lemma StageWritesApplyPeriod(table: RegisterTable, registers: seq<Byte>, stage: string, periodPclks: int)
    requires table.Valid() && IsRegisterFile(registers) && ValidPulsePeriod(stage, periodPclks)
    ensures var r := StageWrites(table, registers, stage, periodPclks);
      r[table.systemSequenceConfig] == registers[table.systemSequenceConfig] &&
      (stage == "pre" ==> VcselPeriodFromRegister(r[table.preRangeConfigVcselPeriod]) == periodPclks) &&
      (stage == "final" ==> VcselPeriodFromRegister(r[table.finalRangeConfigVcselPeriod]) == periodPclks)
  {
    var t := table;
    var steps := SequenceStepsOf(t, registers);
    var a := t.StateRegisters();
    if stage == "pre" {
      PreRangeWritesEffect(t, registers, periodPclks, steps.timeouts);
      assert a[0] != a[3] && a[0] != a[4] && a[0] != a[5] && a[0] != a[6];
    } else {
      FinalRangeWritesEffect(t, registers, periodPclks, steps);
      assert a[0] != a[7] && a[0] != a[8] && a[0] != a[9];
    }
  }

  /**
   * After a successful reconfiguration the sequence config holds the value it
   * held before, and the stage's period register reads back the new period.
   */
  lemma ReconfigureAppliesPeriod(table: RegisterTable, d: Device, stage: string, periodPclks: int)
    requires table.Valid() && IsRegisterFile(d.registers) && ValidPulsePeriod(stage, periodPclks)
    requires ReconfigurePulsePeriod(table, d, stage, periodPclks).outcome.Done?
    ensures var r := ReconfigurePulsePeriod(table, d, stage, periodPclks).device.registers;
      r[table.systemSequenceConfig] == d.registers[table.systemSequenceConfig] &&
      (stage == "pre" ==> VcselPeriodFromRegister(r[table.preRangeConfigVcselPeriod]) == periodPclks) &&
      (stage == "final" ==> VcselPeriodFromRegister(r[table.finalRangeConfigVcselPeriod]) == periodPclks)
  {
    var t := table;
    var written := StageWrites(t, d.registers, stage, periodPclks);
    var s := Recalibrate(t, Device(written, d.timingBudget));
    assert ReconfigurePulsePeriod(t, d, stage, periodPclks) == s;
    RecalibrateFrame(t, Device(written, d.timingBudget));
    RecalibrateKeepsState(t, written, s.device.registers);
    StageWritesApplyPeriod(t, d.registers, stage, periodPclks);
  }

  /** The phase calibration touches no register the sequence steps are read from, so the measured budget is unchanged. */
  lemma CalibrationKeepsMeasure(table: RegisterTable, registers: seq<Byte>)
    requires table.Valid() && IsRegisterFile(registers)
    ensures MeasuredBudget(table, PhaseCalibration(table, registers)) == MeasuredBudget(table, registers)
  {
    var r := PhaseCalibration(table, registers);
    PhaseCalibrationEffect(table, registers);
    var a := table.StateRegisters();
    assert a[0] != a[1] && a[0] != a[2] && a[3] != a[1] && a[3] != a[2] && a[4] != a[1] && a[4] != a[2];
    assert a[5] != a[1] && a[5] != a[2] && a[6] != a[1] && a[6] != a[2] && a[7] != a[1] && a[7] != a[2];
    assert a[8] != a[1] && a[8] != a[2] && a[9] != a[1] && a[9] != a[2];
    SequenceStepsDependOnStepRegisters(table, registers, r);
  }

  /**
   * What the device measures after a successful pulse-period change with the
   * final range enabled: the budget re-applied at the end of the change comes
   * back as the cached budget plus the 600 us of extra start overhead, within
   * one final-range macro period, exactly as after setting that budget
   * directly on the register file the stage's writes leave; for a final-range
   * change that macro period is the one of the new period.
   */
  lemma ReconfigureThenMeasure(table: RegisterTable, d: Device, stage: string, periodPclks: int)
    requires table.Valid() && IsRegisterFile(d.registers) && ValidPulsePeriod(stage, periodPclks)
    requires Enables(table, d.registers).finalRange
    requires ReconfigurePulsePeriod(table, d, stage, periodPclks).outcome.Done?
    ensures var reading := BudgetOf(table, StageWrites(table, d.registers, stage, periodPclks), SetOverhead);
      var mclks := FinalRangeTimeoutMclks(reading, d.timingBudget);
      var measured := MeasuredBudget(table, ReconfigurePulsePeriod(table, d, stage, periodPclks).device.registers);
      var slack := MacroPeriodPs(reading.timeouts.finalRangeVcselPeriodPclks) / 1000000;
      (stage == "final" ==> reading.timeouts.finalRangeVcselPeriodPclks == periodPclks) &&
      (1 <= mclks <= 0x8000_0000 ==> measured <= d.timingBudget + (GetOverhead - SetOverhead) + slack) &&
      (DecodeTimeout(TimeoutEncoding(mclks)) == mclks ==>
        d.timingBudget + (GetOverhead - SetOverhead) <= measured <= d.timingBudget + (GetOverhead - SetOverhead) + slack)
  {
    var t := table;
    var written := StageWrites(t, d.registers, stage, periodPclks);
    var dw := Device(written, d.timingBudget);
    var s := Recalibrate(t, dw);
    assert ReconfigurePulsePeriod(t, d, stage, periodPclks) == s;
    StageWritesApplyPeriod(t, d.registers, stage, periodPclks);
    assert Enables(t, written).finalRange;
    var budget := SetTimingBudget(t, dw, d.timingBudget);
    assert budget.outcome.Done?;
    SetThenMeasure(t, dw, d.timingBudget);
    assert s.device.registers == PhaseCalibration(t, budget.device.registers);
    CalibrationKeepsMeasure(t, budget.device.registers);
  }

  /**
   * Writing the pre-range period the device already has programs the same
   * pre-range timeout word, when that word is in the encoder's canonical
   * form, and the same MSRC byte.
   */
  lemma PreRangeRewriteKeepsTimeouts(table: RegisterTable, registers: seq<Byte>, periodPclks: int)
    requires table.Valid() && IsRegisterFile(registers) && periodPclks in PrePhaseRegisters
    requires periodPclks == VcselPeriodFromRegister(registers[table.preRangeConfigVcselPeriod])
    requires Canonical(Read16(registers, table.preRangeConfigTimeoutMacropHi))
    ensures var r := StageWrites(table, registers, "pre", periodPclks);
      Read16(r, table.preRangeConfigTimeoutMacropHi) == Read16(registers, table.preRangeConfigTimeoutMacropHi) &&
      r[table.msrcConfigTimeoutMacrop] == registers[table.msrcConfigTimeoutMacrop]
  {
    var word := Read16(registers, table.preRangeConfigTimeoutMacropHi);
    var timeouts := SequenceStepsOf(table, registers).timeouts;
    PreRangeWritesEffect(table, registers, periodPclks, timeouts);
    EncodeDecodeRoundTrip(word);
    assert UsToMclks(timeouts.preRangeUs, periodPclks) == DecodeTimeout(word);
    assert UsToMclks(timeouts.msrcDssTccUs, periodPclks) == registers[table.msrcConfigTimeoutMacrop] as int + 1;
  }

  /**
   * Reconfiguring the pre-range stage with the period it already has leaves
   * its timeout word, when canonical, and the MSRC byte as they were.
   */
  lemma ReconfigureSamePreRangePeriod(table: RegisterTable, d: Device, periodPclks: int)
    requires table.Valid() && IsRegisterFile(d.registers) && periodPclks in PrePhaseRegisters
    requires periodPclks == VcselPeriodFromRegister(d.registers[table.preRangeConfigVcselPeriod])
    requires Canonical(Read16(d.registers, table.preRangeConfigTimeoutMacropHi))
    requires ReconfigurePulsePeriod(table, d, "pre", periodPclks).outcome.Done?
    ensures var r := ReconfigurePulsePeriod(table, d, "pre", periodPclks).device.registers;
      Read16(r, table.preRangeConfigTimeoutMacropHi) == Read16(d.registers, table.preRangeConfigTimeoutMacropHi) &&
      r[table.msrcConfigTimeoutMacrop] == d.registers[table.msrcConfigTimeoutMacrop]
  {
    var t := table;
    var written := StageWrites(t, d.registers, "pre", periodPclks);
    var s := Recalibrate(t, Device(written, d.timingBudget));
    assert ReconfigurePulsePeriod(t, d, "pre", periodPclks) == s;
    RecalibrateFrame(t, Device(written, d.timingBudget));
    RecalibrateKeepsState(t, written, s.device.registers);
    PreRangeRewriteKeepsTimeouts(t, d.registers, periodPclks);
  }
}
