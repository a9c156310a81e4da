/**
 * The driver object for one sensor (the single-device paths of index.js over
 * the register access of I2C-core.js). A Sensor holds the sensor's register
 * file and the timing budget the driver caches for it; each method performs
 * its operation read by read and write by write, and its postcondition says
 * that it ends in the state the matching function of Vl53l0x describes, so
 * the lemmas proved there hold of every run.
 */
module Driver {
  import opened TimeoutCodec
  import opened ClockModel
  import opened Budget
  import opened I2CCore
  import opened Vl53l0x

  class Sensor {
    /** The addresses of the registers the driver uses. */
    const table: RegisterTable
    /** The sensor's 256 registers, as the bus would read them. */
    var registers: seq<Byte>
    /** The cached timing budget (addresses[pin].timingBudget), -1 until one is set. */
    var timingBudget: int

    predicate Valid()
      reads this
    {
      table.Valid() && IsRegisterFile(registers)
    }

    /** The sensor as a value. */
    function State(): Device
      reads this
    {
      Device(registers, timingBudget)
    }

    /** _addressSetup for one sensor: no budget is cached yet. */
    constructor (table: RegisterTable, registers: seq<Byte>)
      requires table.Valid() && IsRegisterFile(registers)
      ensures Valid()
      ensures this.table == table && this.registers == registers && timingBudget == -1
    {
      this.table := table;
      this.registers := registers;
      timingBudget := -1;
    }

    /** _writeReg of one byte: the value's low byte lands in the register. */
    method WriteReg(register: Address, value: int)
      requires Valid()
      modifies this
      ensures Valid()
      ensures registers == Write8(old(registers), register, value) && timingBudget == old(timingBudget)
    {
      registers := registers[register := ToByte(value)];
    }

    /** _writeReg of a 16-bit value: [value >> 8, value & 0xff] from the register on. */
    method WriteReg16(register: Address, value: int)
      requires Valid() && register < 255
      modifies this
      ensures Valid()
      ensures registers == Write16(old(registers), register, value) && timingBudget == old(timingBudget)
    {
      var high := value / 256;
      var low := value % 256;
      registers := registers[register := ToByte(high)];
      registers := registers[register + 1 := low];
    }

    /** _readReg of one byte. */
    method ReadReg(register: Address) returns (value: Byte)
      requires Valid()
      ensures value == registers[register]
    {
      value := registers[register];
    }

    /** _readReg of a 16-bit value: (buffer[0] << 8) | buffer[1], which reads back what WriteReg16 wrote. */
    method ReadReg16(register: Address) returns (word: int)
      requires Valid() && register < 255
      ensures 0 <= word < 65536
      ensures word == Read16(registers, register)
    {
      var high := ReadReg(register);
      var low := ReadReg(register + 1);
      word := high as int * 256 + low as int;
    }

    /** _getVcselPulsePeriodInternal / getVcselPulsePeriod: ((reg + 1) << 1). */
    method GetVcselPulsePeriod(register: Address) returns (periodPclks: int)
      requires Valid()
      ensures periodPclks == VcselPeriodFromRegister(registers[register])
      ensures EncodeVcselPeriod(periodPclks) == registers[register]
    {
      var value := ReadReg(register);
      periodPclks := (value as int + 1) * 2;
      VcselPeriodRoundTrip(value);
    }

    /** _getSequenceSteps: the enables, then the timeouts read with the pre-range enable. */
    method GetSequenceSteps() returns (steps: SequenceSteps)
      requires Valid()
      ensures steps == SequenceStepsOf(table, registers)
    {
      var sequenceConfig := ReadReg(table.systemSequenceConfig);
      var enables := StepEnables(sequenceConfig);
      var prePeriod := ReadReg(table.preRangeConfigVcselPeriod);
      var msrc := ReadReg(table.msrcConfigTimeoutMacrop);
      var preWord := ReadReg16(table.preRangeConfigTimeoutMacropHi);
      var finalPeriod := ReadReg(table.finalRangeConfigVcselPeriod);
      var finalWord := ReadReg16(table.finalRangeConfigTimeoutMacropHi);
      steps := SequenceSteps(enables, StepTimeouts(enables.preRange, prePeriod, msrc, preWord, finalPeriod, finalWord));
    }

    /** _getBudget: the sequence steps and the common budget over base v. */
    method GetBudget(v: int) returns (reading: BudgetReading)
      requires Valid()
      ensures reading == BudgetOf(table, registers, v)
    {
      var steps := GetSequenceSteps();
      reading := BudgetReading(steps.enables, steps.timeouts, CommonBudget(v, steps.enables, steps.timeouts));
    }

    /** getMeasurementTimingBudgetInternal. */
    method GetMeasurementTimingBudget() returns (budgetUs: int)
      requires Valid()
      ensures budgetUs == MeasuredBudget(table, registers)
    {
      var reading := GetBudget(GetOverhead);
      budgetUs := reading.value;
      if reading.enables.finalRange {
        budgetUs := budgetUs + reading.timeouts.finalRangeUs + FinalRangeOverhead;
      }
    }

    /** setMeasurementTimingBudget for this sensor. */
    method SetMeasurementTimingBudget(budgetUs: int) returns (outcome: Outcome)
      requires Valid()
      modifies this
      ensures Valid()
      ensures Step(outcome, State()) == SetTimingBudget(table, old(State()), budgetUs)
    {
      if budgetUs < MinTimingBudget {
        return Fault(BudgetBelowMinimum);
      }
      var reading := GetBudget(SetOverhead);
      if reading.enables.finalRange {
        var usedBudgetUs := reading.value + FinalRangeOverhead;
        if usedBudgetUs > budgetUs {
          return Fault(RequestedTimeoutTooBig);
        }
        var finalRangeTimeoutMclks := UsToMclks(budgetUs - usedBudgetUs, reading.timeouts.finalRangeVcselPeriodPclks);
        if reading.enables.preRange {
          finalRangeTimeoutMclks := finalRangeTimeoutMclks + reading.timeouts.preRangeMclks;
        }
        assert finalRangeTimeoutMclks == FinalRangeTimeoutMclks(reading, budgetUs);
        var word := EncodeTimeout(finalRangeTimeoutMclks);
        ghost var before := registers;
        WriteReg16(table.finalRangeConfigTimeoutMacropHi, word);
        timingBudget := budgetUs;
        assert State() == SetTimingBudget(table, Device(before, old(timingBudget)), budgetUs).device;
      }
      return Done;
    }

    /**
     * The budget steps of setup: the measured budget is cached, MSRC and TCC
     * are disabled by writing 0xE8 to the sequence config, and the cached
     * budget is set again over the remaining stages.
     */
    method RecalculateTimingBudget() returns (outcome: Outcome)
      requires Valid()
      modifies this
      ensures Valid()
      ensures var cached := MeasuredBudget(table, old(registers));
        Step(outcome, State()) ==
          SetTimingBudget(table, Device(Write8(old(registers), table.systemSequenceConfig, 0xE8), cached), cached)
      ensures Enables(table, registers) == SequenceStepEnables(msrc := false, dss := true, tcc := false, preRange := true, finalRange := true)
    {
      timingBudget := GetMeasurementTimingBudget();
      WriteReg(table.systemSequenceConfig, 0xE8);
      var disabled := registers;
      outcome := SetMeasurementTimingBudget(timingBudget);
      var a := table.StateRegisters();
      assert a[0] != a[8] && a[0] != a[9];
      assert registers[table.systemSequenceConfig] == disabled[table.systemSequenceConfig] == 0xE8;
      SetupSequenceConfig();
    }

    /** performSingleRefCalibrationInternal: start with the VHV bits, clear the interrupt, stop. */
    method PerformSingleRefCalibration(vhvInitByte: bv8)
      requires Valid()
      modifies this
      ensures Valid()
      ensures registers == ApplyWrites(old(registers), CalibrationWrites(table, vhvInitByte))
      ensures timingBudget == old(timingBudget)
    {
      var writes := CalibrationWrites(table, vhvInitByte);
      WriteReg(table.sysrangeStart, StartValue(table.systemSequenceConfig as bv8, vhvInitByte) as int);
      var r1 := registers;
      WriteReg(table.systemInterruptClear, table.systemSequenceConfig);
      var r2 := registers;
      WriteReg(table.sysrangeStart, table.sysrangeStart);
      assert ApplyWrites(r2, writes[2..]) == registers;
      assert ApplyWrites(r1, writes[1..]) == ApplyWrites(r2, writes[2..]);
    }

    /** The pre-range writes of setVcselPulsePeriod, from the sequence steps read first. */
    method WritePreRange(periodPclks: int, timeouts: SequenceStepTimeouts)
      requires Valid() && periodPclks in PrePhaseRegisters && timeouts.msrcDssTccUs >= 0
      modifies this
      ensures Valid()
      ensures registers == PreRangeWrites(table, old(registers), periodPclks, timeouts)
      ensures timingBudget == old(timingBudget)
    {
      var newPreRangeTimeoutMclks := UsToMclks(timeouts.preRangeUs, periodPclks);
      var newMsrcTimeoutMclks := UsToMclks(timeouts.msrcDssTccUs, periodPclks);
      UsToMclksMonotonic(0, timeouts.msrcDssTccUs, periodPclks);
      WriteReg(PrePhaseRegisters[periodPclks], 0x18);
      WriteReg(table.preRangeConfigValidPhaseLow, 0x08);
      WriteReg(table.preRangeConfigVcselPeriod, EncodeVcselPeriod(periodPclks));
      var word := EncodeTimeout(newPreRangeTimeoutMclks);
      WriteReg16(table.preRangeConfigTimeoutMacropHi, word);
      WriteReg(table.msrcConfigTimeoutMacrop, MsrcTimeoutByte(newMsrcTimeoutMclks));
    }

    /** The final-range writes of setVcselPulsePeriod, from the sequence steps read first. */
    method WriteFinalRange(periodPclks: int, steps: SequenceSteps)
      requires Valid() && periodPclks in FinalPhaseArgs
      modifies this
      ensures Valid()
      ensures registers == FinalRangeWrites(table, old(registers), periodPclks, steps)
      ensures timingBudget == old(timingBudget)
    {
      var newFinalRangeTimeoutMclks := UsToMclks(steps.timeouts.finalRangeUs, periodPclks)
        + (if steps.enables.preRange then steps.timeouts.preRangeMclks else 0);
      var args := FinalPhaseArgs[periodPclks];
      WriteReg(table.finalRangeConfigValidPhaseHigh, args[0]);
      WriteReg(table.finalRangeConfigValidPhaseLow, 0x08);
      WriteReg(table.globalConfigVcselWidth, args[1]);
      WriteReg(table.algoPhasecalConfigTimeout, args[2]);
      WriteReg(0xFF, 0x01);
      WriteReg(table.algoPhasecalLim, args[3]);
      WriteReg(0xFF, 0x00);
      WriteReg(table.finalRangeConfigVcselPeriod, EncodeVcselPeriod(periodPclks));
      var word := EncodeTimeout(newFinalRangeTimeoutMclks);
      WriteReg16(table.finalRangeConfigTimeoutMacropHi, word);
    }

    /** The end of setVcselPulsePeriod: the cached budget again, then a phase calibration around the saved config. */
    method Recalibrate() returns (outcome: Outcome)
      requires Valid()
      modifies this
      ensures Valid()
      ensures Step(outcome, State()) == Vl53l0x.Recalibrate(table, old(State()))
    {
      outcome := SetMeasurementTimingBudget(timingBudget);
      if outcome.Fault? {
        return;
      }
      var budgetRegisters := registers;
      var sequenceConfig := ReadReg(table.systemSequenceConfig);
      WriteReg(table.systemSequenceConfig, 0x02);
      PerformSingleRefCalibration(table.sysrangeStart as bv8);
      WriteReg(table.systemSequenceConfig, sequenceConfig);
      assert registers == PhaseCalibration(table, budgetRegisters);
    }

    /** setVcselPulsePeriod for this sensor. */
    method SetVcselPulsePeriod(stage: string, periodPclks: int) returns (outcome: Outcome)
      requires Valid()
      modifies this
      ensures Valid()
      ensures Step(outcome, State()) == ReconfigurePulsePeriod(table, old(State()), stage, periodPclks)
    {
      if stage != "pre" && stage != "final" {
        return Fault(InvalidType);
      }
      if stage == "pre" && periodPclks !in PrePhaseRegisters {
        return Fault(InvalidPrePeriod);
      }
      if stage == "final" && periodPclks !in FinalPhaseArgs {
        return Fault(InvalidFinalPeriod);
      }
      var steps := GetSequenceSteps();
      if stage == "pre" {
        WritePreRange(periodPclks, steps.timeouts);
      } else {
        WriteFinalRange(periodPclks, steps);
      }
      outcome := Recalibrate();
    }
  }
}
