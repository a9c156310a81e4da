/**
 * The sequence-step records and the per-stage budget accumulator
 * (utils/budget.js).
 *
 * The source builds these records with snake_case keys in I2C-core.js and reads
 * them with camelCase keys in utils/budget.js and index.js; the model has one
 * record type and gives every reader the field it means.
 */
module Budget {

  /** Which optional ranging stages the SYSTEM_SEQUENCE_CONFIG register enables. */
  datatype SequenceStepEnables = SequenceStepEnables(
    msrc: bool,
    dss: bool,
    tcc: bool,
    preRange: bool,
    finalRange: bool)

  /** The stages' pulse periods, raw timeouts (macro-clock ticks) and timeouts in microseconds. */
  datatype SequenceStepTimeouts = SequenceStepTimeouts(
    preRangeVcselPeriodPclks: int,
    msrcDssTccMclks: int,
    msrcDssTccUs: int,
    preRangeMclks: int,
    preRangeUs: int,
    finalRangeVcselPeriodPclks: int,
    finalRangeMclks: int,
    finalRangeUs: int)

  const TccOverhead := 590
  const DssOverhead := 690
  const MsrcOverhead := 660
  const PreRangeOverhead := 660

  /**
   * calcCommonBudget: adds to budgetUs the time of every enabled stage but the
   * final range. DSS takes the place of MSRC when both are enabled.
   */
  function CommonBudget(budgetUs: int, enables: SequenceStepEnables, timeouts: SequenceStepTimeouts): (total: int)
  {
    var afterTcc := if enables.tcc then budgetUs + timeouts.msrcDssTccUs + TccOverhead else budgetUs;
    var afterDss :=
      if enables.dss then afterTcc + 2 * (timeouts.msrcDssTccUs + DssOverhead)
      else if enables.msrc then afterTcc + timeouts.msrcDssTccUs + MsrcOverhead
      else afterTcc;
    if enables.preRange then afterDss + timeouts.preRangeUs + PreRangeOverhead else afterDss
  }

  /** The time the stages themselves take, on top of the base value. */
  function StageTime(enables: SequenceStepEnables, timeouts: SequenceStepTimeouts): int
  {
    var t := timeouts.msrcDssTccUs;
    (if enables.tcc then t + TccOverhead else 0)
    + (if enables.dss then 2 * (t + DssOverhead) else if enables.msrc then t + MsrcOverhead else 0)
    + (if enables.preRange then timeouts.preRangeUs + PreRangeOverhead else 0)
  }

  /** The accumulator adds exactly the stage time to its base: it is linear in the base. */
  lemma CommonBudgetIsBasePlusStages(budgetUs: int, k: int, enables: SequenceStepEnables, timeouts: SequenceStepTimeouts)
    ensures CommonBudget(budgetUs, enables, timeouts) == budgetUs + StageTime(enables, timeouts)
    ensures CommonBudget(budgetUs + k, enables, timeouts) == CommonBudget(budgetUs, enables, timeouts) + k
  {
  }

  /** With no stage enabled the base comes back unchanged; the final range never contributes. */
  lemma NoStageNoTime(budgetUs: int, enables: SequenceStepEnables, timeouts: SequenceStepTimeouts)
    requires !enables.msrc && !enables.dss && !enables.tcc && !enables.preRange
    ensures CommonBudget(budgetUs, enables, timeouts) == budgetUs
  {
  }

  /** What enabling TCC or the pre-range adds, holding the others fixed; the final range adds nothing. */
  lemma StageContributions(budgetUs: int, e: SequenceStepEnables, t: SequenceStepTimeouts)
    ensures CommonBudget(budgetUs, e.(tcc := true), t) == CommonBudget(budgetUs, e.(tcc := false), t) + t.msrcDssTccUs + 590
    ensures CommonBudget(budgetUs, e.(preRange := true), t) == CommonBudget(budgetUs, e.(preRange := false), t) + t.preRangeUs + 660
    ensures CommonBudget(budgetUs, e.(finalRange := !e.finalRange), t) == CommonBudget(budgetUs, e, t)
  {
  }

  /** What enabling DSS or MSRC adds, holding the others fixed: DSS counts twice and replaces MSRC. */
  lemma DssReplacesMsrc(budgetUs: int, e: SequenceStepEnables, t: SequenceStepTimeouts)
    ensures CommonBudget(budgetUs, e.(dss := true), t) == CommonBudget(budgetUs, e.(dss := false, msrc := false), t) + 2 * (t.msrcDssTccUs + 690)
    ensures CommonBudget(budgetUs, e.(dss := true, msrc := true), t) == CommonBudget(budgetUs, e.(dss := true, msrc := false), t)
    ensures CommonBudget(budgetUs, e.(dss := false, msrc := true), t) == CommonBudget(budgetUs, e.(dss := false, msrc := false), t) + t.msrcDssTccUs + 660
  {
  }

  /** The accumulator reads nothing of the timeouts but the MSRC/DSS/TCC and pre-range microseconds. */
  lemma CommonBudgetReadsTwoTimeouts(budgetUs: int, e: SequenceStepEnables, t1: SequenceStepTimeouts, t2: SequenceStepTimeouts)
    requires t1.msrcDssTccUs == t2.msrcDssTccUs && t1.preRangeUs == t2.preRangeUs
    ensures CommonBudget(budgetUs, e, t1) == CommonBudget(budgetUs, e, t2)
  {
  }

  /** Stage set e1 is contained in e2. */
  predicate FewerStages(e1: SequenceStepEnables, e2: SequenceStepEnables)
  {
    (e1.msrc ==> e2.msrc) && (e1.dss ==> e2.dss) && (e1.tcc ==> e2.tcc) && (e1.preRange ==> e2.preRange)
  }

  /**
   * With non-negative stage timeouts, the budget is at least its base and never
   * shrinks when more stages are enabled.
   */
  lemma MoreStagesMoreTime(budgetUs: int, e1: SequenceStepEnables, e2: SequenceStepEnables, t: SequenceStepTimeouts)
    requires t.msrcDssTccUs >= 0 && t.preRangeUs >= 0
    requires FewerStages(e1, e2)
    ensures budgetUs <= CommonBudget(budgetUs, e1, t) <= CommonBudget(budgetUs, e2, t)
  {
  }
}
