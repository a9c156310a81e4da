/**
 * The sensor's register file and the values the driver derives from it
 * (I2C-core.js): 8- and 16-bit register access, the sequence-step enables and
 * timeouts, the budget reading and the reference-SPAD information byte.
 *
 * The bus is not modelled: a read is a lookup in the device's 256 byte-wide
 * registers and a write replaces one (or, for a 16-bit register, two
 * consecutive) of them. The register addresses of utils/REG.js are not part of
 * this model; they are the symbolic fields of a RegisterTable whose Valid()
 * states the distinctness the driver relies on.
 */
module I2CCore {
  import opened Arithmetic
  import opened TimeoutCodec
  import opened ClockModel
  import opened Budget

  /** The value of one 8-bit register. */
  type Byte = b: int | 0 <= b < 256

  /** The index of one register. */
  type Address = a: int | 0 <= a < 256

  /** The addresses of the registers the core reads and writes. */
  datatype RegisterTable = RegisterTable(
    sysrangeStart: Address,
    systemSequenceConfig: Address,
    systemInterruptClear: Address,
    msrcConfigTimeoutMacrop: Address,
    preRangeConfigVcselPeriod: Address,
    preRangeConfigTimeoutMacropHi: Address,
    preRangeConfigValidPhaseLow: Address,
    finalRangeConfigVcselPeriod: Address,
    finalRangeConfigTimeoutMacropHi: Address,
    finalRangeConfigValidPhaseHigh: Address,
    finalRangeConfigValidPhaseLow: Address,
    globalConfigVcselWidth: Address,
    algoPhasecalConfigTimeout: Address,
    algoPhasecalLim: Address)
  {
    /**
     * The registers whose values the driver reads back: the sequence config,
     * the start and interrupt-clear registers, and the registers of the stage
     * timeouts and periods (a 16-bit timeout occupies two).
     */
    function StateRegisters(): seq<int>
    {
      [systemSequenceConfig, sysrangeStart, systemInterruptClear, msrcConfigTimeoutMacrop,
       preRangeConfigVcselPeriod, preRangeConfigTimeoutMacropHi, preRangeConfigTimeoutMacropHi + 1,
       finalRangeConfigVcselPeriod, finalRangeConfigTimeoutMacropHi, finalRangeConfigTimeoutMacropHi + 1]
    }

    /**
     * The two 16-bit timeout registers have a low byte, the registers that hold
     * state the driver reads back are pairwise distinct, and no other write of
     * the driver lands on SYSTEM_SEQUENCE_CONFIG.
     */
    predicate Valid()
    {
      preRangeConfigTimeoutMacropHi < 255 && finalRangeConfigTimeoutMacropHi < 255 &&
      Distinct(StateRegisters()) &&
      systemSequenceConfig !in {0x18, 0x30, 0x40, 0x50, 0xFF, preRangeConfigValidPhaseLow,
                                finalRangeConfigValidPhaseHigh, finalRangeConfigValidPhaseLow,
                                globalConfigVcselWidth, algoPhasecalConfigTimeout, algoPhasecalLim}
    }
  }

  predicate Distinct(addresses: seq<int>)
  {
    forall i, j :: 0 <= i < j < |addresses| ==> addresses[i] != addresses[j]
  }

  /** The register file of one device. */
  predicate IsRegisterFile(registers: seq<Byte>)
  {
    |registers| == 256
  }

  /** The byte a write stores for an integer value: its remainder modulo 256. */
  function ToByte(value: int): (b: Byte)
    ensures 0 <= value < 256 ==> b == value
    ensures (value - b) % 256 == 0
  {
    value % 256
  }

  /** _writeReg of one byte. */
  function Write8(registers: seq<Byte>, register: Address, value: int): (r: seq<Byte>)
    requires IsRegisterFile(registers)
    ensures IsRegisterFile(r)
    ensures r[register] == ToByte(value)
    ensures forall a: Address {:trigger r[a]} :: a != register ==> r[a] == registers[a]
  {
    registers[register := ToByte(value)]
  }

  /** _writeReg of a 16-bit value: the high byte (value >> 8) at register, the low byte at the next one. */
  function Write16(registers: seq<Byte>, register: Address, value: int): (r: seq<Byte>)
    requires IsRegisterFile(registers) && register < 255
    ensures IsRegisterFile(r)
  {
    registers[register := ToByte(value / 256)][register + 1 := ToByte(value)]
  }

  /** _readReg of a 16-bit value: (b0 << 8) | b1. */
  function Read16(registers: seq<Byte>, register: Address): (word: int)
    requires IsRegisterFile(registers) && register < 255
    ensures 0 <= word < 65536
    ensures word / 256 == registers[register] && word % 256 == registers[register + 1]
  {
    registers[register] as int * 256 + registers[register + 1] as int
  }

  /**
   * 16-bit packing round-trips both ways: a written word reads back modulo
   * 2^16, writing back what was read changes nothing, and no other register is
   * touched.
   */
  lemma Register16RoundTrip(registers: seq<Byte>, register: Address, value: int)
    requires IsRegisterFile(registers) && register < 255
    ensures Read16(Write16(registers, register, value), register) == value % 65536
    ensures Write16(registers, register, Read16(registers, register)) == registers
    ensures forall a: Address :: a != register && a != register + 1 ==>
      Write16(registers, register, value)[a] == registers[a]
  {
    var hi, lo := value / 256 % 256, value % 256;
    assert value == (value / 256) * 256 + lo;
    assert value / 256 == (value / 256 / 256) * 256 + hi;
    assert value == (value / 256 / 256) * 65536 + (hi * 256 + lo);
    DivUnique(value, 65536, value / 256 / 256, hi * 256 + lo);
    var w := Read16(registers, register);
    assert w / 256 == registers[register] && w % 256 == registers[register + 1];
  }

  /** _getSequenceStepEnables: msrc, dss, tcc, pre-range and final-range are bits 2, 3, 4, 6 and 7. */
  function StepEnables(sequenceConfig: Byte): SequenceStepEnables
  {
    SequenceStepEnables(
      msrc := sequenceConfig / 4 % 2 == 1,
      dss := sequenceConfig / 8 % 2 == 1,
      tcc := sequenceConfig / 16 % 2 == 1,
      preRange := sequenceConfig / 64 % 2 == 1,
      finalRange := sequenceConfig / 128 % 2 == 1)
  }

  /** The sequence-config byte that enables exactly the given stages. */
  function EnableBits(enables: SequenceStepEnables): (sequenceConfig: Byte)
    ensures sequenceConfig % 4 == 0 && sequenceConfig / 32 % 2 == 0
  {
    (if enables.msrc then 4 else 0) + (if enables.dss then 8 else 0) + (if enables.tcc then 16 else 0)
    + (if enables.preRange then 64 else 0) + (if enables.finalRange then 128 else 0)
  }

  /** Every set of enables is read back from the byte that has exactly those bits set. */
  lemma EnablesRoundTrip(enables: SequenceStepEnables)
    ensures StepEnables(EnableBits(enables)) == enables
  {
  }

  /** Decoding keeps bits 2, 3, 4, 6 and 7 and ignores bits 0, 1 and 5. */
  lemma EnablesIgnoreOtherBits(sequenceConfig: Byte)
    ensures EnableBits(StepEnables(sequenceConfig))
         == sequenceConfig - sequenceConfig % 4 - sequenceConfig / 32 % 2 * 32
  {
    var c: int := sequenceConfig;
    var b2, b3, b4, b5, b6, b7 := c / 4 % 2, c / 8 % 2, c / 16 % 2, c / 32 % 2, c / 64 % 2, c / 128 % 2;
    assert c / 4 == 2 * (c / 8) + b2 by { assert c / 4 / 2 == c / 8; }
    assert c / 8 == 2 * (c / 16) + b3 by { assert c / 8 / 2 == c / 16; }
    assert c / 16 == 2 * (c / 32) + b4 by { assert c / 16 / 2 == c / 32; }
    assert c / 32 == 2 * (c / 64) + b5 by { assert c / 32 / 2 == c / 64; }
    assert c / 64 == 2 * (c / 128) + b6 by { assert c / 64 / 2 == c / 128; }
    assert c / 128 == b7;
    assert c - c % 4 - b5 * 32 == 4 * b2 + 8 * b3 + 16 * b4 + 64 * b6 + 128 * b7;
    assert EnableBits(StepEnables(sequenceConfig)) == 4 * b2 + 8 * b3 + 16 * b4 + 64 * b6 + 128 * b7;
  }

  /**
   * _getSequenceStepTimeouts over the register values it reads: the two pulse
   * periods, the MSRC byte, and the pre- and final-range timeout words.
   */
  function StepTimeouts(preRange: bool, preRangePeriodReg: Byte, msrcReg: Byte, preRangeWord: int,
                        finalRangePeriodReg: Byte, finalRangeWord: int): (t: SequenceStepTimeouts)
    ensures t.preRangeVcselPeriodPclks >= 2 && t.preRangeVcselPeriodPclks % 2 == 0
    ensures t.finalRangeVcselPeriodPclks >= 2 && t.finalRangeVcselPeriodPclks % 2 == 0
    ensures EncodeVcselPeriod(t.preRangeVcselPeriodPclks) == preRangePeriodReg
    ensures EncodeVcselPeriod(t.finalRangeVcselPeriodPclks) == finalRangePeriodReg
    ensures 1 <= t.msrcDssTccMclks <= 256 && t.msrcDssTccMclks - 1 == msrcReg
    ensures t.preRangeMclks >= 1
    ensures t.finalRangeMclks + (if preRange then t.preRangeMclks else 0) == DecodeTimeout(finalRangeWord)
    ensures t.msrcDssTccUs >= 0 && t.preRangeUs >= 0
    ensures UsToMclks(t.msrcDssTccUs, t.preRangeVcselPeriodPclks) == t.msrcDssTccMclks
    ensures UsToMclks(t.preRangeUs, t.preRangeVcselPeriodPclks) == t.preRangeMclks
    ensures UsToMclks(t.finalRangeUs, t.finalRangeVcselPeriodPclks) == t.finalRangeMclks
    ensures t.msrcDssTccUs == MclksToUs(t.msrcDssTccMclks, t.preRangeVcselPeriodPclks)
    ensures t.preRangeUs == MclksToUs(t.preRangeMclks, t.preRangeVcselPeriodPclks)
    ensures t.finalRangeUs == MclksToUs(t.finalRangeMclks, t.finalRangeVcselPeriodPclks)
  {
    var prePclks := VcselPeriodFromRegister(preRangePeriodReg);
    var finalPclks := VcselPeriodFromRegister(finalRangePeriodReg);
    var msrcMclks := msrcReg as int + 1;
    var preMclks := DecodeTimeout(preRangeWord);
    var finalMclks := DecodeTimeout(finalRangeWord) - (if preRange then preMclks else 0);
    MclksRoundTrip(msrcMclks, prePclks);
    MclksRoundTrip(preMclks, prePclks);
    MclksRoundTrip(finalMclks, finalPclks);
    MclksToUsMonotonic(0, msrcMclks, prePclks);
    MclksToUsMonotonic(0, preMclks, prePclks);
    SequenceStepTimeouts(
      preRangeVcselPeriodPclks := prePclks,
      msrcDssTccMclks := msrcMclks,
      msrcDssTccUs := MclksToUs(msrcMclks, prePclks),
      preRangeMclks := preMclks,
      preRangeUs := MclksToUs(preMclks, prePclks),
      finalRangeVcselPeriodPclks := finalPclks,
      finalRangeMclks := finalMclks,
      finalRangeUs := MclksToUs(finalMclks, finalPclks))
  }

  /** The {enables, timeouts} record _getSequenceSteps returns. */
  datatype SequenceSteps = SequenceSteps(enables: SequenceStepEnables, timeouts: SequenceStepTimeouts)

  /** _getSequenceSteps: the enables, then the timeouts read with the pre-range enable. */
  function SequenceStepsOf(table: RegisterTable, registers: seq<Byte>): (steps: SequenceSteps)
    requires table.Valid() && IsRegisterFile(registers)
    ensures steps.enables == StepEnables(registers[table.systemSequenceConfig])
    ensures steps.timeouts.preRangeMclks == DecodeTimeout(Read16(registers, table.preRangeConfigTimeoutMacropHi))
    ensures steps.timeouts.msrcDssTccMclks == registers[table.msrcConfigTimeoutMacrop] as int + 1
    ensures steps.timeouts.preRangeVcselPeriodPclks == VcselPeriodFromRegister(registers[table.preRangeConfigVcselPeriod])
    ensures steps.timeouts.finalRangeVcselPeriodPclks == VcselPeriodFromRegister(registers[table.finalRangeConfigVcselPeriod])
  {
    var enables := StepEnables(registers[table.systemSequenceConfig]);
    SequenceSteps(enables, StepTimeouts(
      enables.preRange,
      registers[table.preRangeConfigVcselPeriod],
      registers[table.msrcConfigTimeoutMacrop],
      Read16(registers, table.preRangeConfigTimeoutMacropHi),
      registers[table.finalRangeConfigVcselPeriod],
      Read16(registers, table.finalRangeConfigTimeoutMacropHi)))
  }

  /**
   * The sequence steps depend on nothing but the sequence config, the MSRC
   * byte, the two period registers and the two timeout words.
   */
  lemma SequenceStepsDependOnStepRegisters(table: RegisterTable, r1: seq<Byte>, r2: seq<Byte>)
    requires table.Valid() && IsRegisterFile(r1) && IsRegisterFile(r2)
    requires forall a: Address :: a in StepRegisters(table) ==> r1[a] == r2[a]
    ensures SequenceStepsOf(table, r1) == SequenceStepsOf(table, r2)
  {
    var t := table;
    assert r1[t.systemSequenceConfig] == r2[t.systemSequenceConfig];
    assert r1[t.msrcConfigTimeoutMacrop] == r2[t.msrcConfigTimeoutMacrop];
    assert r1[t.preRangeConfigVcselPeriod] == r2[t.preRangeConfigVcselPeriod];
    assert r1[t.finalRangeConfigVcselPeriod] == r2[t.finalRangeConfigVcselPeriod];
    assert r1[t.preRangeConfigTimeoutMacropHi] == r2[t.preRangeConfigTimeoutMacropHi];
    assert r1[t.preRangeConfigTimeoutMacropHi + 1] == r2[t.preRangeConfigTimeoutMacropHi + 1];
    assert r1[t.finalRangeConfigTimeoutMacropHi] == r2[t.finalRangeConfigTimeoutMacropHi];
    assert r1[t.finalRangeConfigTimeoutMacropHi + 1] == r2[t.finalRangeConfigTimeoutMacropHi + 1];
  }

  /** The registers _getSequenceSteps reads. */
  function StepRegisters(table: RegisterTable): set<int>
    requires table.Valid()
  {
    {table.systemSequenceConfig, table.msrcConfigTimeoutMacrop,
     table.preRangeConfigVcselPeriod, table.preRangeConfigTimeoutMacropHi, table.preRangeConfigTimeoutMacropHi + 1,
     table.finalRangeConfigVcselPeriod, table.finalRangeConfigTimeoutMacropHi, table.finalRangeConfigTimeoutMacropHi + 1}
  }

  /** The {enables, timeouts, value} record _getBudget returns. */
  datatype BudgetReading = BudgetReading(enables: SequenceStepEnables, timeouts: SequenceStepTimeouts, value: int)

  /** _getBudget: the common budget over base v of the freshly read sequence steps. */
  function BudgetOf(table: RegisterTable, registers: seq<Byte>, v: int): (reading: BudgetReading)
    requires table.Valid() && IsRegisterFile(registers)
    ensures var steps := SequenceStepsOf(table, registers);
      reading.enables == steps.enables && reading.timeouts == steps.timeouts
    ensures reading.value == v + StageTime(reading.enables, reading.timeouts)
    ensures reading.value >= v
  {
    var steps := SequenceStepsOf(table, registers);
    CommonBudgetIsBasePlusStages(v, 0, steps.enables, steps.timeouts);
    MoreStagesMoreTime(v, SequenceStepEnables(false, false, false, false, false), steps.enables, steps.timeouts);
    BudgetReading(steps.enables, steps.timeouts, CommonBudget(v, steps.enables, steps.timeouts))
  }

  /** The reference-SPAD count and aperture flag decoded at the end of _getSpadInfo. */
  datatype SpadInfo = SpadInfo(count: nat, aperture: bool)

  /**
   * count is tmp & 0x7F; aperture is ((tmp >> 7) & SYSTEM_SEQUENCE_CONFIG) != 0,
   * which uses that register's address as a mask: for an odd address it is bit 7.
   */
  function SpadInfoOf(tmp: Byte, sequenceConfigAddress: Address): (info: SpadInfo)
    ensures 0 <= info.count < 128
    ensures sequenceConfigAddress % 2 == 1 ==> (info.aperture <==> tmp >= 128)
    ensures sequenceConfigAddress % 2 == 0 ==> !info.aperture
  {
    SpadInfo(tmp % 128, tmp / 128 == 1 && sequenceConfigAddress % 2 == 1)
  }

  /** With an odd mask the decode loses nothing: the byte is rebuilt from count and aperture. */
  lemma SpadInfoRoundTrip(tmp: Byte, sequenceConfigAddress: Address)
    requires sequenceConfigAddress % 2 == 1
    ensures var info := SpadInfoOf(tmp, sequenceConfigAddress);
      tmp == info.count + (if info.aperture then 128 else 0)
  {
  }
}
