/** The timing plan of one phase, as the controller reports it. */
module SignalPlan {
  import opened FixedWidth

  const PHASE_COUNT_MAX := 8
  const CYCLE_NUM := 3

  /** Times are in seconds; `preGreen` is the planned length of step 1. */
  datatype PhasePlan = PhasePlan(
    pedGreenFlash: u8,
    pedRed: u8,
    yellow: u8,
    allRed: u8,
    preGreen: u16,
    preTimeCompensated: u16,
    maxGreen: u16,
    minGreen: u8)
  {
    /** The pedestrian steps that the green limits include. */
    function Ped(): (p: nat)
      ensures p <= 510
    {
      pedGreenFlash + pedRed
    }
  }

  /** The status block has room for eight phases, however many are in use. */
  type Plan = p: seq<PhasePlan> | |p| == PHASE_COUNT_MAX witness
    seq(PHASE_COUNT_MAX, _ => PhasePlan(0, 0, 0, 0, 0, 0, 0, 0))
}
