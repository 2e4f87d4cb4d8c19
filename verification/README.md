# Verification model of the roadside-unit middleware

This project models the parts of the middleware that drive a traffic signal
controller and proves properties of them in Dafny.

- `Wrappers`, `FixedWidth`, `SignalPlan`: an optional value, eight and sixteen bit
  values, C division, the timing plan of a phase.
- `CommandBuffer`, `RingRefinement`, `BeyondPlan`, `LateInserts`, `CommandRuns`,
  `Arbitration`, `StepLaws`, `Scheduler`, `Sending`: the ring of pending green-time commands. One
  step function describes the program with three rows and, with no row limit, the
  schedule that it stands for; the run theorems compare the two. `StepLaws` says
  what each event does in terms of the state before and after it alone. `Scheduler` is the program's state as it
  is updated in place, proved against that step function.
- `RunningSignal`, `Compensation`, `Allocation`, `Weights`, `CompensationSlots`,
  `HeldTimes`: the signal as it runs through its plan, the seconds that bring the signal back into step, split over cycles, shared over phases, turned
  into commands, and what the slots hold of them after the poll.
- `Dict`: the chained hash table with rehash, on the heap, proved against a finite
  map.
- `TimerPass`, `TimerFates`, `EventLoop`: the timer list; one pass on values, with
  everything that callbacks and destructors do as a script, what becomes of each
  event over one pass and two, and the linked list that does the same.
- `CircularList`, `MsgQueue`: the circular list and the bounded queue of two
  semaphores and a mutex, as interleaved steps of any number of threads.
- `Frames`, `SignalPort`: the frames on the serial line, and the packet buffer,
  printer and receive loop.
- `VehicleRecords`, `Vehicles`: the vehicles heard, in circular lists with
  move-to-front and expiry.

Clock values, received bytes, configured values, the contents of the plan and the
actions of callbacks are inputs.

Some properties that one might expect are false of the code. The model keeps the
code as it is, gives a lemma with an input that shows the failure, and states when
the property holds:

- An insert for a phase that is already over is sent three cycles later:
  `LateInsertIsSent`; when it is not: `InsertAgreesIff`.
- A command for a phase that passes between two polls is not cleared, and is sent
  three cycles later: `MissedPhaseIsSent`; what a poll clears: `PollClearsIff`.
- A resume can displace an application's command: `RogueIsDisplaced`; when it does:
  `ResumeAcceptedIff`, `NoneDisplacedIff`.
- A nearer command can win over a further one, since the slot keeps eight bits:
  `NearerCommandWins`; when the ranking is right: `SameTargetDuelIff`,
  `SameTargetByDistanceIff`.
- A compensation whose start wraps to the first phase, or that takes three cycles,
  writes slots that the same poll or an earlier position claims: `StartWraps`;
  when not: `VisitsSurviveIff`.
- The split over three or more cycles is not even: `SplitOfNinety`; when it is:
  `SplitNearEqualIff`.
- A correction of 0x8000 seconds or more does not fit its return type:
  `LongCycleMisses`; when every correction fits: `CycleTimeAlignsIff`. With a cycle
  of one second the correction is a whole cycle: `OneSecondCycle`,
  `CorrectionIsShort`.
- Two cycles of one compensation can write the same slot, since each computes its
  own start: `StartsApart`; when they do: `CyclesShareIff`,
  `SlotTwiceIff`, `SlotTwiceOfThreeIff`.
- The slots need not hold the seconds that were allocated.  The insert counts the
  pedestrian steps, which the allocation does not: `PedestriansCut`,
  `PedestriansWrap`; a slot keeps eight bits: `LongGreenCut`; its holder may not give
  way: `UrgentCommandStays`; a later cycle may write it again: `SecondReplacesFirst`.
  When each slot holds its seconds: `InsertHoldsIff`, `AllHeldIff`; when the sums
  are equal: `HeldSumsIff`.
- A waiting command can leave the green limits of its phase: `UnsoundRun`; for which
  plans none does: `RangeKeptIff`.
- A Shan-Zhu controller can be sent a green above the longest one, since 170 goes
  out as 171: `LimitAt170Fails`; for which plans it cannot: `ShanZhuInRangeIff`.
- The seconds left of a phase are not remembered when they are a multiple of 256:
  `ArrivalAt256Forgotten`; otherwise a command counts from them:
  `FirstSendCountsFromArrival`.
- The extensions sent to a Cheng-Long controller can miss the change that they are
  for: `NetChangeIff` says when and by how much.
- Equal weights do not give equal portions of an odd amount: `HalvesIff`; when they
  are equal: `EqualWeightsIff`.
- The loop of one-second extensions does not end for a planned green below five:
  `ShortPlanRunsOn`; when it ends: `LoopEndsIff`.
- An event that a destructor creates can be lost: `CreatedEventIsLost`; when it is:
  `PassLosesIffLead`, `PassLosesIffMarked`.
- The length of a vehicle's record ring does not count its records:
  `LengthOfThree`; when it does: `LengthCountsIff`.
- An escape byte at the end of noise loses the next frame: `StrayDleLosesFrame`;
  when it does not: `NoiseBeforeFrame`.

Where the documentation and the code differ the code is followed: the comment over
the split speaks of equal parts, the code gives each later cycle a part of what is
left; the record ring's push is documented as one push and moves the pointer twice.

## Model

| member | source | states |
|---|---|---|
| `RingRefinement.RingRefinesSchedule` | src/traffic_signal_command_buffer.c:336-558 | For every run of status packets, inserts, deletions, clears and polls in which the poll sees phase changes one at a time and commands address the window ahead, the three-row ring puts out the same codes and the same sends as an unbounded schedule keyed by absolute (cycle, phase), and stays a picture of it |
| `RingRefinement.StepRefines` | src/traffic_signal_command_buffer.c:336-427 | One step of any kind, from related states, gives related states and the same output |
| `LateInserts.InsertAgreesIff` | src/traffic_signal_command_buffer.c:336-558 | After any allowed run in which the signal has been seen, an insert that passes validation leaves ring and schedule with the same code and the same outputs, in every allowed run from there on, if and only if it addresses the window or a phase that the plan does not have |
| `LateInserts.OutsideTells` | src/traffic_signal_command_buffer.c:372-414 | For every insert outside the window with a phase of the plan, whether the phase is over or the slot is about to be cleared, there is an allowed run at whose end the outputs differ |
| `LateInserts.LateInsertIsSent` | src/traffic_signal_command_buffer.c:403-414 | From the start of the program, on a plan of any length: a command for a phase that is over is sent by the ring three cycles later, when the schedule sends nothing |
| `LateInserts.MissedPhaseIsSent` | src/traffic_signal_command_buffer.c:372-414 | From the start of the program: a command for a phase that passes between two polls is never cleared, and is sent by the ring three cycles later, when the schedule sends nothing |
| `LateInserts.PollClearsIff` | src/traffic_signal_command_buffer.c:372-391 | A poll clears a waiting slot, other than the current one, if and only if the last poll saw that position and the phase is another now |
| `BeyondPlan.BesideRun` | src/traffic_signal_command_buffer.c:336-558 | With a command waiting for a phase beyond the plan, ring and schedule put out the same in every allowed run, the plan command and the check for a compensation included |
| `CommandRuns.NoStaleCommand` | src/traffic_signal_command_buffer.c:403-414 | Whatever the ring sends in an allowed run was accepted for that absolute cycle and phase, never for the cycle three earlier |
| `CommandRuns.SendsWithinAccepts` | src/traffic_signal_command_buffer.c:403-414 | In every run, the sends of a slot plus the one it still owes never exceed the inserts accepted into it |
| `CommandRuns.SentAtSecondPoll` | src/traffic_signal_command_buffer.c:403-405 | A slot is sent only when the poll before saw the same phase, in step 1 with more than one second left |
| `CommandRuns.RunInRange` | src/traffic_signal_command_buffer.c:458-468 | With a fixed plan of sound phases, every occupied slot of every run keeps Min <= effect time + Ped <= Max |
| `CommandRuns.RangeKeptIff` | src/traffic_signal_command_buffer.c:458-468 | In the ring as in the schedule: all runs with a fixed plan keep that range if and only if in each phase Min <= Max, Ped <= Max, and Max <= 255 + Ped or Min <= Ped |
| `CommandRuns.UnsoundRun` | src/traffic_signal_command_buffer.c:458-468 | For a plan that fails this in some phase, a run of one insert from the start of the program, in the ring as in the schedule, leaves a slot outside the range |
| `CommandRuns.FiresWithinResumes` | src/traffic_signal_command_buffer.c:372-385 | In every run, each accepted resume starts at most one compensation |
| `CommandRuns.ResumeFiresOnLeaving` | src/traffic_signal_command_buffer.c:372-385 | A resume left alone in its slot starts the compensation exactly at the poll that sees the signal leave that slot, and is gone afterwards |
| `CommandRuns.ResumeAcceptedIff` | src/traffic_signal_command_buffer.c:489-504 | In every state, so after every run: a resume is accepted exactly where nothing waits, another resume waits, or a command of its own id waits; it displaces a command of another id exactly if that one uses the name of a resume |
| `CommandRuns.NoneDisplacedIff` | src/traffic_signal_command_buffer.c:492-504 | Over all runs fed by a set of senders, no command of an id other than 99 is displaced by a resume of id 99 if and only if no sender uses the name of a resume with an id of its own |
| `CommandRuns.RogueIsDisplaced` | src/traffic_signal_command_buffer.c:492-504 | One command that uses that name with its own id, from the start of the program, loses its slot to the next resume |
| `CommandRuns.ResumeDisplacesNoApp` | src/traffic_signal_command_buffer.c:492-504 | In every run in which the name goes with id 99, a resume is accepted exactly where no command of an id other than 99 waits, and displaces none |
| `Arbitration.DifferentTargetsByPriority` | src/traffic_signal_command_buffer.c:470-546 | Among commands of different vehicles with pairwise different target phases, the earliest of least priority value ends up with the slot |
| `Arbitration.SameTargetDuelIff` | src/traffic_signal_command_buffer.c:506-546 | Of two commands for one target phase the slot keeps the further from the planned time if and only if the rival's distance does not lie between the holder's and the one that its eight bits give |
| `Arbitration.SameTargetByDistanceIff` | src/traffic_signal_command_buffer.c:506-546 | Among commands with one target phase, the slot carries the latest of those furthest from the planned time after each of them if and only if it misjudges none of them in that way |
| `Arbitration.SameTargetByDistance` | src/traffic_signal_command_buffer.c:506-546 | Where every clamped effect time fits eight bits, the latest of those furthest from the planned time ends up with the slot |
| `Arbitration.SameTargetByLimits` | src/traffic_signal_command_buffer.c:506-546 | So it does on any phase with Ped <= Max <= 255 + Ped and Min <= Max, whatever the requests |
| `Arbitration.NearerCommandWins` | src/traffic_signal_command_buffer.c:530-546 | On a phase that may last 400 seconds, 60 seconds win over 300, of which the slot keeps 44 |
| `Arbitration.InsertTouchesOneSlot` | src/traffic_signal_command_buffer.c:430-558 | A rejected insert changes no slot, an accepted one only the slot that it addresses |
| `Scheduler.SignalScheduler.Report5FCC` | src/traffic_signal_status_updating.c:53-61 | A phase report moves phase and step, and advances the cycle exactly when the phase number falls |
| `Scheduler.SignalScheduler.Contend` | src/traffic_signal_command_buffer.c:470-546 | The arbitration ladder and the assignment cascade that its jumps enter |
| `Scheduler.SignalScheduler.Insert` | src/traffic_signal_command_buffer.c:430-558 | Validation, clamping, arbitration and write, against the step function that the run theorems are about |
| `Scheduler.SignalScheduler.InsertDifference` | src/traffic_signal_command_buffer.c:561-614 | The insert by a difference to the planned time, including what it does while a compensation is pending |
| `Scheduler.SignalScheduler.Delete` | src/traffic_signal_command_buffer.c:79-110 | Clears exactly the slots of one vehicle |
| `Scheduler.SignalScheduler.ClearAll` | src/traffic_signal_command_buffer.c:71-77 | Clears every slot of the three rows |
| `Scheduler.SignalScheduler.Poll` | src/traffic_signal_command_buffer.c:336-427 | One poll, field by field of the state before and after it: the slot of a phase newly seen takes over the seconds left and keeps all else that the inserts gave it, the slot left is empty, a sent slot is marked and takes over its effect time, every other slot is as the inserts left it; who is in control, the plan command, the output |
| `StepLaws.PollObeys` | src/traffic_signal_command_buffer.c:336-427 | The poll of the step function, with any number of rows, obeys that law |
| `StepLaws.StatusMeans` | src/traffic_signal_status_updating.c:53-61 | A status report counts a cycle exactly when the phase number falls, and changes nothing but cycle, phase, step and seconds |
| `StepLaws.DeleteMeans` | src/traffic_signal_command_buffer.c:71-110 | Deleting a vehicle empties the slots of that name and no other, clearing empties all |
| `StepLaws.ValidIff` | src/traffic_signal_command_buffer.c:430-456 | Which commands pass the checks before the buffer is looked at |
| `StepLaws.ClampIsNearest` | src/traffic_signal_command_buffer.c:458-468 | The green that a request comes to is the nearest that keeps the limits with the pedestrian steps, the longest green counting last |
| `StepLaws.AnyoneTakes` | src/traffic_signal_command_buffer.c:470-558 | An empty slot and a waiting resume give way to every command, which takes the slot over with all it carries |
| `StepLaws.OwnCommandUpdates` | src/traffic_signal_command_buffer.c:470-558 | A sender updates what he asks for, as one compensation does another's; holder and priority stay |
| `StepLaws.ChallengeIff` | src/traffic_signal_command_buffer.c:506-546 | Somebody else's command with the same target takes the slot over exactly if it is as far from the planned time, with another target exactly if it is more urgent; otherwise the slot stays |
| `StepLaws.ResumeAsks` | src/traffic_signal_command_buffer.c:619-637 | The resume that the program inserts asks for the planned green of the current phase in the current cycle |
| `StepLaws.AdjustmentMeans` | src/traffic_signal_command_buffer.c:561-614 | An insert by difference is refused during a compensation and for a difference of zero; otherwise it is an insert of what the slot was told last, or the planned time, plus the difference, moved into the limits |
| `StepLaws.UnboundDifference` | src/traffic_signal_command_buffer.c:561-614 | Where no limit binds, the slot comes to wait with exactly the told or planned time and the difference |
| `StepLaws.RunTells` | src/traffic_signal_command_buffer.c:336-558 | Over every run each slot knows what it was told last: the seconds left when a poll first saw its phase, its effect time when it was sent, the planned time when a command took it while it knew nothing, nothing once cleared |
| `StepLaws.FirstSendCountsFromArrival` | src/traffic_signal_command_buffer.c:372-414 | From the poll that first sees a phase to the first send in it, whatever inserts come between: the difference that the sent command makes counts from the seconds left at the first, unless they are a multiple of 256 |
| `StepLaws.ArrivalAt256Forgotten` | src/traffic_signal_command_buffer.c:372-385 | With 256 seconds left the first command to take the slot counts from the planned time instead |
| `StepLaws.ControlIff` | src/traffic_signal_command_buffer.c:372-414 | In every run an application is in control exactly if a command of it was sent and neither another send nor a phase change was polled since |
| `StepLaws.PretimeIff` | src/traffic_signal_command_buffer.c:393-402 | In every run the plan command goes out at a poll exactly if that is in step 4, leaves no command waiting, and none went out since a poll saw another step |
| `Scheduler.SignalScheduler.ResumeControl` | src/traffic_signal_command_buffer.c:619-637 | Inserts the resume command at the current phase, or does nothing without one to resume |
| `Sending.ShanZhuInRangeIff` | src/traffic_signal_command_buffer.c:231-277 | With a sound plan, every effect time that any run of the ring sends to a Shan-Zhu controller keeps the phase within its green limits on the wire if and only if no phase has a longest green of 170 seconds beyond its pedestrian steps |
| `Sending.LimitAt170Fails` | src/traffic_signal_command_buffer.c:231-277 | On a phase with that longest green, a run of four events from the start of the program sends 171, one second above the limit |
| `Sending.LoopEndsIff` | src/traffic_signal_command_buffer.c:216-222 | The loop of one-second extensions ends if and only if it starts at zero or more, or the planned green is at least five |
| `Sending.NetChangeIff` | src/traffic_signal_command_buffer.c:183-229 | The one-second extensions and the last one change the running step by exactly the change to be applied if and only if the planned green and the change come to at most 255 and the last value is neither 0 nor 170; the cap leaves 255, and the other two miss by one second |
| `Sending.ExtensionsShape` | src/traffic_signal_command_buffer.c:216-226 | The number of one-second extensions is what the planned green lacks, divided by PreGreen - 4 and rounded up; without a lack there is none, and the last value is in [1, 255] |
| `Sending.ShortPlanRunsOn` | src/traffic_signal_command_buffer.c:216-222 | A full slot asked down to nothing with four seconds left, on a phase planned for four seconds: the loop starts below zero and never rises |
| `Sending.CommandBufSend` | src/traffic_signal_command_buffer.c:142-294 | All packets of one command in order: dynamic mode, the countdown off while vehicles with priority are about, the extensions, the query, the countdown on when none is left; nothing exactly when muted or for another maker. The extensions of a Cheng-Long controller bring about the difference asked for if that leaves five seconds or fewer were left, and otherwise a change that leaves exactly five; the others are sent the effect time, 170 as 171 |
| `Compensation.CorrectionAligns` | src/traffic_compensation.c:93-128 | The computed correction makes the predicted next cycle start a multiple of the cycle time, for every integer offset |
| `Compensation.CorrectionIsShort` | src/traffic_compensation.c:93-128 | The correction is shorter than a cycle if and only if the cycle is longer than one second, and at most half a cycle, rounded up, for offsets from zero |
| `Compensation.CycleTimeAlignsIff` | src/traffic_compensation.c:93-128 | For a given cycle time, the sixteen bits that are returned align at every time of day if and only if the cycle lasts at most 0x8000 seconds |
| `Compensation.LongCycleMisses` | src/traffic_compensation.c:93-128 | With a longer cycle, the correction 0x8000 seconds before the baseline wraps and misses |
| `Compensation.ReturnedCorrectionAlignsIff` | src/traffic_compensation.c:93-128 | The sixteen bits that are returned still align if and only if the correction is below 0x8000 |
| `Compensation.AlignmentCompensation` | src/traffic_compensation.c:93-128 | The loops over phases and steps compute, in sixteen bits, the correction of the second at which the signal, run second by second through its plan from the reported position, first starts its next cycle; it aligns that start if and only if the correction is below 0x8000 |
| `RunningSignal.Arrives` | src/traffic_compensation.c:111-123 | From any reported phase, step and seconds left, the signal starts its next cycle after exactly the seconds left, the later steps of the phase and the later phases, and not before |
| `RunningSignal.NextCycleOnce` | src/traffic_compensation.c:111-123 | There is one such time at most |
| `Compensation.SplitShape` | src/traffic_compensation.c:289-297 | The parts add up to the total, none points the other way, and from the second on they do not grow |
| `Compensation.SplitNearEqualUpToTwo` | src/traffic_compensation.c:289-297 | For one or two cycles the parts differ by at most one second |
| `Compensation.SplitNearEqualIff` | src/traffic_compensation.c:289-297 | For three cycles or more the split is even if and only if the total is at most one second, or four over three cycles |
| `Compensation.SplitOfNinety` | src/traffic_compensation.c:289-297 | Ninety seconds over three cycles become 40, 30 and 20 |
| `Compensation.SplitOverCycles` | src/traffic_compensation.c:285-306 | The loop with its truncating divisions produces that split in sixteen bits |
| `Allocation.AllocateByWeight` | src/traffic_compensation.c:225-253 | The portions dealt: each is the least of the exact share of the amount, rounded up to a whole second, of what is left at its turn and of the room to the limit; placed and left add up to the whole |
| `Allocation.FreePortion` | src/traffic_compensation.c:233-251 | A phase that takes neither all that is left nor all of its room gets t with amount * weight / 100 <= t < amount * weight / 100 + 1 for a positive amount, mirrored for a negative one |
| `Allocation.EqualWeightsIff` | src/traffic_compensation.c:233-251 | Two phases of equal weight get equal portions if and only if the second finds as much left and as much room as the first got, and is not offered more |
| `Allocation.HalvesIff` | src/traffic_compensation.c:233-251 | Two phases with half of the weight each and room for all: the first gets the larger half, the second the rest, and they are equal if and only if the amount is even |
| `Allocation.HundredLeavesNothing` | src/traffic_compensation.c:225-253 | With room for every share and weights of at least a hundred together, nothing is left, and each phase before the last of it is given out gets its share to within one second |
| `Allocation.LeftAtIs` | src/traffic_compensation.c:225-253 | What is left at a phase is the amount less what the phases before it have got |
| `Weights.EvenWeights` | src/traffic_compensation.c:332-344 | The adjusted phases weigh the same, the others nothing, and the weights add up to a hundred if any phase was adjusted |
| `Weights.FindRoads` | src/traffic_compensation.c:375-384 | One pass finds the longest planned green and the longest of the others, the first of equals |
| `Weights.RoadWeights` | src/traffic_compensation.c:375-397 | All the weight goes to the arterial road for a positive correction and to the branch road for a negative one |
| `Weights.RoadsComeFirst` | src/traffic_compensation.c:262-282 | Those two roads are exactly the first two in the order in which the seconds left over are given out |
| `Allocation.SortByGreen` | src/traffic_compensation.c:262-275 | The index array ends as a permutation by descending planned green, ties in index order |
| `Allocation.AllocateRemaining` | src/traffic_compensation.c:256-282 | The rest goes to the phases in use, each listed once, by descending planned green; a phase gets some only if every phase before it is at its bound, and some is left only if all are |
| `Allocation.AllocateCycle` | src/traffic_compensation.c:308-319 | The portions by weight, then the rest in that order, place exactly the amount, clamped to what the plan's limits allow, and every phase ends within its limits |
| `Allocation.AttainedIff` | src/traffic_compensation.c:308-319 | Over several cycles, what is placed falls short on the side of the amount, and equals it if and only if every cycle's part fits that cycle |
| `Allocation.Compensate` | src/traffic_compensation.c:285-319 | The seconds allotted over all cycles sum to the correction if and only if each part fits its cycle; then, if it fits sixteen bits, the next cycle of the running signal, moved by them, starts on a multiple of the cycle time |
| `HeldTimes.InsertHoldsIff` | src/traffic_signal_command_buffer.c:458-546 | For any slot: after a compensation's insert it waits with the time asked for if and only if the slot gives way and the time leaves room for the pedestrian steps and fits eight bits (or, with more pedestrian seconds than the longest green, happens to be what the wrap gives), or it does not give way and asks for just that time already |
| `HeldTimes.AllHeldIff` | src/traffic_signal_command_buffer.c:372-391 | In any state in which a poll starts a compensation, for any commands of it: after the poll every slot addressed holds its time if and only if for each command the poll does not clear the slot, no other command wants it for another time, and the insert by itself would leave the time there |
| `HeldTimes.HeldSumsIff` | src/traffic_signal_command_buffer.c:458-546 | Where every slot gives way, none is addressed twice and no phase has more pedestrian seconds than its longest green, the slots hold after the poll at most the seconds asked for beyond the planned greens, and all of them if and only if every time leaves room for the pedestrian steps and fits eight bits |
| `HeldTimes.CommandsGive` | src/traffic_compensation.c:178-223 | The commands of all cycles ask, beyond the planned greens, for exactly the seconds allocated, wherever each cycle starts |
| `HeldTimes.PedestriansCut` | src/traffic_signal_command_buffer.c:463-468 | A green of 35 seconds, five more than planned, on a phase that may last forty with fifteen pedestrian seconds: the slot holds 25 |
| `HeldTimes.PedestriansWrap` | src/traffic_signal_command_buffer.c:463-468 | A green of ten seconds on a phase that may last ten with twenty pedestrian seconds: the slot holds 246 |
| `HeldTimes.LongGreenCut` | src/traffic_signal_command_buffer.c:530-546 | A green of 300 seconds on a phase that may last 400: the slot holds 44 |
| `HeldTimes.UrgentCommandStays` | src/traffic_signal_command_buffer.c:506-529 | A waiting command of priority 1 for another phase keeps its slot and the compensation is turned away |
| `HeldTimes.SecondReplacesFirst` | src/traffic_compensation.c:189-212 | Eight and seven seconds for one phase in two cycles, with every slot empty and room for both: both go to one slot, and the slots hold seven of the fifteen |
| `HeldTimes.StartCompensation` | src/traffic_compensation.c:285-319 | End to end, from the clock to the slots after the poll: when the slots hold what was allotted, when the allotment is the correction, and that the next cycle of the running signal, moved by what the slots hold, starts on a multiple of the cycle time if that is a correction that fits sixteen bits |
| `CompensationSlots.VisitsTile` | src/traffic_compensation.c:195-223 | Over up to three cycles with one start, no slot is visited twice, each next slot is the next in ring order, and each cycle visits each phase |
| `CompensationSlots.CyclesShareIff` | src/traffic_compensation.c:189-223 | Two cycles with starts of their own visit a common slot if and only if they follow one another and the earlier starts at a later phase, or they are the first and third and the third starts at a later phase |
| `CompensationSlots.CyclesSkipIff` | src/traffic_compensation.c:189-223 | Two cycles in a row leave slots out between them if and only if the earlier starts at an earlier phase |
| `CompensationSlots.SlotTwiceIff` | src/traffic_compensation.c:189-212 | The commands of a compensation over two cycles address some slot twice if and only if the first cycle starts at a later phase than the second and the second gives any phase anything |
| `CompensationSlots.SlotTwiceOfThreeIff` | src/traffic_compensation.c:189-223 | Over three cycles some slot is addressed twice if and only if the first starts later than the second, or the second later than the third and the third gives anything, or the third later than the first and its commands reach that slot |
| `CompensationSlots.OneCycleNeverTwice` | src/traffic_compensation.c:189-223 | The commands of a compensation over one cycle never address a slot twice |
| `CompensationSlots.StartsApart` | src/traffic_compensation.c:189-212 | A concrete compensation of fifteen seconds whose first cycle starts one phase later than its second: of its three commands the last two address one slot |
| `CompensationSlots.InsertCycle` | src/traffic_compensation.c:178-223 | The commands of a cycle are a prefix of the slots it visits, in the last cycle up to its last adjustment |
| `CompensationSlots.FirstCommandIs` | src/traffic_compensation.c:178-195 | The first command of a cycle asks for the planned green and the adjustment of the current phase, if that is in step 1 and what is left of it less the adjustment is a green within the limits; otherwise of the next phase |
| `CompensationSlots.VisitsSurviveIff` | src/traffic_compensation.c:189-195 | For one to three cycles, every slot visited outlives the poll that compensates if and only if there are at most two and the start did not wrap past the last phase |
| `CompensationSlots.StartWraps` | src/traffic_compensation.c:189-195 | At the last phase, in any step but the first, the start wraps and the first slot is behind the signal |
| `CompensationSlots.CompensationAllowed` | src/traffic_signal_command_buffer.c:372-381 | Commands of such a compensation, inserted in the middle of a poll, keep the ring a picture of the schedule |
| `CompensationSlots.InsertCycles` | src/traffic_compensation.c:308-319 | All cycles' commands in order, and that a poll may insert them |
| `Dict.MaskIsMod` | include/dict.h:190-210 | Masking the hash with size - 1 is the remainder by the size, for every power of two |
| `Dict.Dict.NextPower` | include/dict.h:116-128 | The next size is a power of two, at least four, large enough and less than twice what is asked |
| `Dict.Dict.Rehash` | include/dict.h:131-175 | Moving every entry keeps every binding and ends with the counter of entries to move at zero, as the source asserts |
| `Dict.Dict.Expand` | include/dict.h:131-175 | The expanded table stands for the same map; expanding below the number of keys is refused |
| `Dict.Dict.KeyIndex` | include/dict.h:190-210 | The bucket of a new key after any expansion, or -1 exactly for a key that is there |
| `Dict.Dict.Add` | include/dict.h:213-238 | Succeeds exactly for a new key, and then the map has that binding and all others as before |
| `Dict.Dict.Replace` | include/dict.h:259-277 | The map is updated at the key, and the result says whether the key is new |
| `Dict.Dict.Find` | include/dict.h:239-254 | The entry of the key with the map's value, or null exactly when the map has no such key |
| `Dict.Dict.Delete` | include/dict.h:278-304 | Succeeds exactly for a key that is there, and removes it from the map and nothing else |
| `Dict.Dict.ClearTable` | include/dict.h:306-328 | The loop over the buckets, guarded by the counter, frees every entry exactly once, ends with the counter at zero, and the map is empty |
| `TimerPass.AddMillisecondsExact` | src/ae_event.c:285-304 | The sum of the times is exact for every argument, and the milliseconds stay in range for non-negative ones; for negative ones exactly when the remainder does not pull them below zero |
| `TimerPass.TimeoutExact` | src/ae_event.c:160-201 | The poll timeout is the time to the deadline or zero, so the loop does not sleep past it and finds it due when it wakes on time |
| `TimerPass.PassVisits` | src/ae_event.c:338-423 | One pass looks at each event present at its start once, in order, whatever callbacks and destructors do: a marked one is unlinked, a due one run, another left |
| `TimerPass.PassKeeps` | src/ae_event.c:338-423 | If destructors create no events, exactly the unlinked events leave the list, and all that callbacks create are in it, newest first |
| `TimerPass.PassCounts` | src/ae_event.c:338-423 | Every event that was there or was created is in the list, unlinked, or lost |
| `TimerFates.EventFate` | src/ae_event.c:338-423 | What a pass makes of every event in the list: it is unlinked, and gone, if and only if it is marked when it is reached; otherwise it runs if and only if the clock has reached its deadline. One that ran is due again as many milliseconds after its callback as that returned, with its id unless somebody marked it later; one that returned -1 is marked; one that was not due keeps its deadline |
| `TimerFates.RunsAgainIff` | src/ae_event.c:338-423 | Over two passes: an event that ran and asked for r milliseconds runs again in the next pass if and only if nobody has marked it and the clock is r milliseconds past the end of its callback |
| `TimerFates.OneShotIsUnlinked` | src/ae_event.c:338-423 | Over two passes: an event that returned -1 is met once in the next pass, unlinked there, and gone after it |
| `TimerFates.GoneForGood` | src/ae_event.c:338-423 | An event that is not in the list is met in no later pass |
| `TimerPass.PassLosesIffLead` | src/ae_event.c:365-380 | A pass loses events if and only if, through the marked events at the head of the list and what their destructors do, one is reached behind an event created meanwhile: a condition on list and destructors alone |
| `TimerPass.PassLosesIffMarked` | src/ae_event.c:365-380 | When destructors mark nothing, a pass loses events if and only if the list begins with marked events and the destructor of one before the last of them creates an event |
| `TimerPass.CreatedEventIsLost` | src/ae_event.c:365-380 | Two marked events at the head, the first with a destructor that creates one: the new event is lost |
| `TimerPass.AdvanceIdsUpTo` | src/ae_event.c:382-390 | No event that a pass still has to look at is younger than the pass: the guard against younger ones never holds |
| `EventLoop.EventLoop.CreateTimeEvent` | src/ae_event.c:242-267 | The new event stands at the head with the next id, due so many milliseconds after the clock; the list stays numbered by age |
| `EventLoop.EventLoop.DeleteTimeEvent` | src/ae_event.c:272-283 | Exactly the event of that id is marked, if there is one, and the result says whether there was |
| `EventLoop.EventLoop.ProcessTimeEvents` | src/ae_event.c:338-423 | The pass over the linked list: what becomes of each event is said of the list before and after it; the number returned is that of the events run; with the clock set back the deadlines are taken to second zero first |
| `EventLoop.ResetRuns` | src/ae_event.c:346-360 | With the clock set back every event that is not marked when it is reached runs, once the clock is past second zero |
| `EventLoop.EventLoop.SearchNearest` | src/ae_event.c:319-334 | The first event of least deadline, or null exactly for an empty list |
| `CircularList.InsertHead` | include/queue.h:43-49 | Four link assignments put the node first in the ring |
| `CircularList.InsertTail` | include/queue.h:51-57 | Four link assignments put the node last in the ring |
| `CircularList.Remove` | include/queue.h:59-63 | Two link assignments take the node out of the ring and leave its own links |
| `MsgQueue.MessageList.PutLast` | src/msg_queue.c:24-33 | Inside the mutex an enqueue appends one item |
| `MsgQueue.MessageList.TakeFirst` | src/msg_queue.c:12-23 | Inside the mutex a dequeue takes the oldest item |
| `MsgQueue.StepIsSafe` | src/msg_queue.c:12-33 | Every step of every thread keeps the accounting of the semaphores, the mutex and the list, and a thread about to remove finds an item |
| `MsgQueue.EveryRunIsSafe` | src/msg_queue.c:12-44 | For any number of threads and any interleaving after the initialization: the two counts and the threads between wait and post sum to 1024, the list never exceeds 1024, one thread at most is in the critical section, no dequeue meets an empty list, and items leave in the order in which they entered |
| `MsgQueue.NoDeadlock` | src/msg_queue.c:12-33 | A thread past its semaphore can always go on, or the holder of the mutex can |
| `MsgQueue.BlockedIff` | src/msg_queue.c:12-33 | When all threads rest, a put is blocked exactly on a full queue and a take exactly on an empty one |
| `MsgQueue.Delivered` | src/msg_queue.c:12-33 | For any number of threads and any interleaving: what the takers remove, in that order, and what is still there, is what the putters asked to put, in the order in which they insert |
| `MsgQueue.TakesArePuts` | src/msg_queue.c:12-44 | From the initialization on, the takes are a prefix of the puts |
| `MsgQueue.TakerReturns` | src/msg_queue.c:12-23 | A taker returns the item it removed, and a step changes no other thread |
| `MsgQueue.CallsEnd` | src/msg_queue.c:12-33 | Each move of a thread brings its call one nearer to its end; none takes more than five |
| `Frames.XorChanges` | src/traffic_signal_packet_rx.c:58-78 | One changed byte changes the checksum |
| `Frames.RoundTrip` | src/traffic_signal_packet_rx.c:511-548 | Any frames of the three kinds in any order, with noise between them that holds no start and no open escape, are heard exactly as printed, in order, with every checksum accepted |
| `Frames.WithoutDleIsQuiet` | src/traffic_signal_packet_rx.c:511-548 | Noise without the escape byte is such noise |
| `Frames.NoiseBeforeFrame` | src/traffic_signal_packet_rx.c:511-548 | Noise without a frame start lets the next frame through exactly as printed, unless it ends in an open escape; then the frame's start is swallowed and its body is read as noise |
| `Frames.StrayDleLosesFrame` | src/traffic_signal_packet_rx.c:511-548 | An escape byte right before an acknowledgement loses it |
| `Frames.AcceptedIffPrinted` | src/traffic_signal_packet_rx.c:227-286 | An information frame is accepted if and only if its bytes are those that printing its content gives |
| `Frames.HeardWasPrinted` | src/traffic_signal_packet_rx.c:511-548 | Over any stream of bytes, each information frame accepted stands printed somewhere in the stream |
| `Frames.DamageIsRefused` | src/traffic_signal_packet_rx.c:279-284 | A frame with one wrong byte in its sequence number, address or information is refused for its checksum, and the loop goes on behind it |
| `Frames.DamagedStartIsSkipped` | src/traffic_signal_packet_rx.c:523-546 | A frame with one wrong start byte that is not another start is read as noise from its head on |
| `Frames.DamagedAnswerIsRefused` | src/traffic_signal_packet_rx.c:350-392 | An acknowledgement or refusal with one wrong byte behind its start is refused for its checksum, and the loop goes on behind it |
| `Frames.MistakenStart` | src/traffic_signal_packet_rx.c:350-392 | A frame whose second byte arrives as the start of another kind: as an acknowledgement or refusal it is refused, unless the byte in the place of the checksum happens to be right, and the loop goes on behind that byte; as an information frame, one shorter than a header is overlong |
| `Frames.WrongEndIsRefused` | src/traffic_signal_packet_rx.c:263-284 | A wrong checksum byte is refused, and so is a wrong trailer; after the latter the checksum byte is read as the first byte of what follows |
| `Frames.AnswerIsHeard` | src/traffic_signal_packet_rx.c:104-179 | The other side hears from the acknowledgement which frame was accepted, and from the refusal which error was found |
| `Frames.FrameXorsToZero` | src/traffic_signal_packet_tx.c:471-512 | Over the bytes of any frame, its checksum included, the exclusive or is zero |
| `Frames.LengthsAreTrue` | src/traffic_signal_packet_rx.c:104-179 | Every frame printed and every answer announces its own length, high byte first |
| `Frames.AckIs` | src/traffic_signal_packet_rx.c:104-139 | The acknowledgement byte for byte: to the address of the frame, with its number, eight bytes that add up to zero |
| `Frames.NakIs` | src/traffic_signal_packet_rx.c:141-179 | The refusal byte for byte: to all, with the frame's number and the code, nine bytes that add up to zero |
| `SignalPort.SignalPacket.CheckSum` | src/traffic_signal_packet_rx.c:58-78 | The two loops compute the checksum over the nine header bytes and the information |
| `SignalPort.SignalPacket.Print` | src/traffic_signal_packet_tx.c:471-512 | The copy loops produce the header, the information, the trailer and the checksum; with the fields of an information packet these are the bytes of the frame that the receiver is proved to hear |
| `SignalPort.SignalPacket.MakeAck` | src/traffic_signal_packet_rx.c:104-139 | The acknowledgement's eight bytes, with the sequence number and address of the frame |
| `SignalPort.SignalPacket.MakeNak` | src/traffic_signal_packet_rx.c:141-179 | The refusal's nine bytes, with the broadcast address and the error |
| `SignalPort.Receiver.ReadInfo` | src/traffic_signal_packet_rx.c:240-261 | Reading at most twenty bytes at a time gives what one read of all of them would |
| `SignalPort.Receiver.RecvInfo` | src/traffic_signal_packet_rx.c:227-286 | One information frame taken from the line and answered, in every outcome |
| `SignalPort.Receiver.RecvAck` | src/traffic_signal_packet_rx.c:350-368 | One acknowledgement taken from the line; its number, or a failure of the checksum |
| `SignalPort.Receiver.RecvNak` | src/traffic_signal_packet_rx.c:370-392 | One refusal taken from the line |
| `SignalPort.Receiver.Handle` | src/traffic_signal_packet_rx.c:489-548 | The receive loop hears what the stream holds and writes the answers in that order, until it waits for more |
| `VehicleRecords.HeardIsLatest` | src/OBU_record_processing.c:83-108 | After a record is heard it is the one at the write position, which has moved two places |
| `VehicleRecords.RingHoldsLastFive` | src/OBU_record_processing.c:83-94 | Although each push skips a place, the ring holds the last five records heard |
| `VehicleRecords.LengthCountsIff` | src/OBU_record_processing.c:83-108 | The length field counts the records in the ring exactly for the first two records, and later exactly when two thirds of the number heard, modulo 256, happen to be five |
| `VehicleRecords.LengthOfThree` | src/OBU_record_processing.c:83-108 | After three records the length is two |
| `VehicleRecords.HashIsPolynomial` | src/OBU_record_processing.c:38-48 | The hash, wrapped at every character, is the polynomial in 33 wrapped once |
| `VehicleRecords.ListsTellTheRun` | src/OBU_record_processing.c:184-284 | After any run of messages and collections, each list has no name twice and holds exactly the vehicles of its kind or bucket that were heard and not found too old since, each with its latest record; a list of special vehicles is ordered by when they were heard, latest first |
| `VehicleRecords.RecordsTellTheRun` | src/OBU_record_processing.c:83-284 | After any run every vehicle of a list is, record for record, what the records heard since it came into the list make of it, and every vehicle with such records is in the list |
| `VehicleRecords.NormalListsKeepOrder` | src/OBU_record_processing.c:184-228 | After any run a list of ordinary vehicles is ordered by when they came into it, newest first; hearing them again does not move them |
| `VehicleRecords.RouteMeans` | src/OBU_record_processing.c:184-284 | An ordinary vehicle goes to the bucket of its name's polynomial, a special one to the list of its kind, any other nowhere |
| `VehicleRecords.CollectKeeps` | src/OBU_record_processing.c:460-518 | A collection keeps exactly the vehicles whose latest record is at most 60 seconds old |
| `VehicleRecords.CollectKeepsOrder` | src/OBU_record_processing.c:460-518 | A collection leaves, of any list, exactly the vehicles that are not too old, in list order |
| `VehicleRecords.CollectLatestFirst` | src/OBU_record_processing.c:497-517 | A list that is latest first stays so |
| `Vehicles.VehicleList.Find` | src/OBU_record_processing.c:138-148 | The first object of that name and its place, or null |
| `Vehicles.VehicleList.InsertSpecial` | src/OBU_record_processing.c:236-284 | The relinking keeps the ring well formed and leaves the list of move-to-front |
| `Vehicles.VehicleList.InsertNormal` | src/OBU_record_processing.c:184-228 | A new vehicle goes to the front, a known one takes the record where it is |
| `Vehicles.VehicleList.Collect` | src/OBU_record_processing.c:497-517 | Unlinking during the walk keeps the ring well formed and leaves exactly the collected list |
| `Vehicles.Djb2Hash` | src/OBU_record_processing.c:38-48 | The loop computes the bucket |
| `Vehicles.VehicleTable.Receive` | src/OBU_record_processing.c:184-284 | A message changes its own list and no other, and every list is what the whole run makes of it |
| `Vehicles.VehicleTable.GarbageCollection` | src/OBU_record_processing.c:460-518 | Both loops together collect every list |

## Left out

- Sockets, epoll, serial and file input and output, logging, configuration, wireless, message signs and the J2735 codec: not modelled; their values are inputs.
- Waiting for acknowledgements between packets of one command, the note for the compensation and the callbacks after a send: not modelled.
- `special_OBU_list_update_status`, the predicted speed of a vehicle and its private space: not modelled.
- Sending.CommandBufSend: for a Cheng-Long controller requires that the loop ends, which `LoopEndsIff` characterizes; for other inputs the program does not return.
- Scheduler.SignalScheduler.Poll: requires a reported phase of at most eight; for others the program reads outside its tables.
- Frames.DamageIsRefused: a wrong length byte of an information frame is not covered, since it moves the place where the checksum is read.
- Allocation.AllocateByWeight: weights are reals, so the rounding of single-precision products is not captured.
- Weights.RoadWeights: a negative correction with a single phase is not covered; there is no branch road then, and the source writes outside its table.
- StepLaws.AdjustmentMeans: configured limits and longest greens that do not fit sixteen bits, in which the source computes, are not covered there; the step function keeps the wrap.
- StepLaws.ResumeAsks: planned greens of 0x8000 seconds and more, which the command's sixteen bits cannot hold, are not covered.
- TimerFates.RunsAgainIff: clock readings and deadlines whose milliseconds are out of range are not covered; `AddMillisecondsExact` says when they are in range.
- Scheduler.SignalScheduler.InsertDifference: the percentage bounds of the adjustment, floating point in the source, are inputs of the event.
- The locks of the poll: it is atomic but for the inserts of a compensation in its middle, which are arbitrary commands there; the unlock inside the emptiness check and other threads between its locks are not modelled.
- RingRefinement.RingRefinesSchedule: the number of phases stays the same during a run, there is no window to address before the first phase report, and every phase change is polled before the next; what becomes of a phase that is not polled is `MissedPhaseIsSent`.
- HeldTimes.StartCompensation: greens of 0x8000 seconds and more, which the command's sixteen bits cannot hold, are not covered.
- HeldTimes.HeldSumsIff: where a slot does not give way, is cleared or is addressed twice, `AllHeldIff` says which slots hold their seconds, but nothing is said of their sum, in which the excess of one slot can cancel the lack of another.
- CompensationSlots.SlotTwiceOfThreeIff: a compensation over more than three cycles, which goes around the ring again, is not characterized.
- Dict.Dict.Find: keys are values with an abstract hash; duplication and release of keys and values, what becomes of a freed entry, 32-bit truncation of the hash and failed allocation are not modelled.
- EventLoop.EventLoop.ProcessTimeEvents: callbacks and destructors may create and mark events but do not run a pass of their own.
- SignalPort.Receiver.RecvInfo: a length that the packet buffer cannot hold ends the modelled run, since the source then writes outside the buffer; reads return what they were asked for or wait.
- SignalPort.Receiver.Handle: what the handlers of the accepted packets do, other than the phase report, is not modelled.
- Vehicles.VehicleTable.Receive: the locks of the lists are not modelled, a message or a collection is one step; names are at most as long as the buffers.
- MsgQueue.EveryRunIsSafe: interrupted or failing semaphore operations are not modelled.
- Vehicle and application lists of the emergency-vehicle program, the external-application proxy, the thread pool and the phase getters: not modelled.
