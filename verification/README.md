# Adreno A5xx/A6xx/A3xx driver logic

A model of the parts of the Adreno (KGSL) graphics driver that reason about concurrency, command streams,
firmware files and shared buffers, with proofs of what they promise.

| area | files |
|---|---|
| A5xx preemption: protocol, handlers, ownership, page tables | `PreemptionProtocol`, `PreemptionDevice`, `PreemptionOwnership`, `A5xxPageTables`, `A5xxBlocks` |
| PM4 packets and the streams built from them | `Pm4`, `Parity`, `A5xxCommands`, `A3xxCommands`, `A5xxSubmission`, `RingSpace`, `A5xxTimeline`, `A5xxEffects` |
| GPMU firmware and register files | `Tilings`, `WordPairs`, `GpmuImages`, `RegFile`, `GpmuLoad` |
| Lists, counters, crash dump, interrupt storms | `PowerupList`, `Counters`, `InterruptStorm`, `CrashDump`, `CrashScript`, `CrashReadBack` |

`dafny verify dfyconfig.toml` checks the project.

The preemption protocol is a transition system: each handler, and the locked part of a submission, is an
atomic step, and the CP has steps of its own (consume, report, switch rings, clear CONTEXT_SWITCH_CNTL).
`PreemptionDevice` updates the fields in the order of the source and proves each handler to be its step.
`PreemptionOwnership` takes the same handlers apart into single shared accesses of any number of threads.
Streams are built as words and specified as packets; an interpreter gives the packets their effect on
indirect buffers, modes, registers and memory.

Clocks, locks and hardware answers are parameters or arbitrary steps: whether the device is awake, whether
the lock shared with the CP was granted, whether memory was there, the read pointer, counter values.

Where the code does not do what its comments or callers suggest, the model follows the code:

- `_execute_reg_sequence` announces 64-bit writes; `kgsl_regwrite` takes 32-bit arguments
  (`RegSequence.FaithfulIffNarrow`).
- `_load_gpmu_firmware` returns 0 for files it refuses before or behind the header check
  (`GpmuLoad.Gpmu.LoadGpmuFirmware`).
- `_load_regfile` keeps the LM pointer of a file it releases (`RegFile.DanglingIff`).
- Patching the power-up list again, as the debugfs setter causes, adds to a length that was never cleared
  (`PowerupList.List.Patch`).
- The crash-dump read-back of later shader banks and of the GPMU list looks in the wrong place
  (`CrashReadBack.BankReadBackOffset`, `CrashReadBack.GpmuReadBackOffset`).
- `adreno_verify_cmdobj` clears wake_on_touch for lists it then refuses (`DrawObjects.VerifyCmdobj`).
- Between the change to TRIGGERED and the CNTL write, a timeout or a late interrupt lets another thread
  take the state over and CNTL be written twice (`PreemptionOwnership.OwnershipIffUndisturbed`,
  `PreemptionOwnership.CntlWrittenTwice`).
- The read without the GMU can be torn (`Counters.ReadAlwaysonPlain`).

## Model

| member | source | states |
|---|---|---|
| `PreemptionProtocol.NoSubmissionLost` | qcom/opensource/graphics-kernel/adreno_a5xx_preempt.c:17-93 | in every state of every run from power-up: no switch in progress means the CP is on `cur_rb` with the hardware WPTR equal to its `wptr`; on every ring reported <= consumed <= visible <= submitted; a switch in progress has a next ring other than the current one |
| `PreemptionProtocol.StepKeepsInv` | qcom/opensource/graphics-kernel/adreno_a5xx_preempt.c:167-316 | every driver handler, submission, reset and CP step keeps the protocol invariant |
| `PreemptionProtocol.RunKeepsInv` | qcom/opensource/graphics-kernel/adreno_a5xx_preempt.c:167-316 | hence every state of every run satisfies it |
| `PreemptionProtocol.QueuedWorkIsCarried` | qcom/opensource/graphics-kernel/adreno_a5xx_preempt.c:204-252 | work submitted while no switch to its ring is in flight is covered by the record or the loaded WPTR of every later switch to that ring, and by the hardware WPTR whenever the protocol rests on it |
| `PreemptionProtocol.MidSwitchWorkIsRecovered` | qcom/opensource/graphics-kernel/adreno_a5xx_ringbuffer.c:85-94 | work that skipped both doorbell and record, even towards the ring being switched to, is visible whenever the protocol next rests on that ring |
| `PreemptionProtocol.TriggerHeals` | qcom/opensource/graphics-kernel/adreno_a5xx_preempt.c:146-252 | from NONE and any WPTR value a trigger ends TRIGGERED towards the lowest-index busy ring with its record written, or idle with all rings empty, or idle on the lowest-index busy ring with WPTR repaired |
| `PreemptionProtocol.TriggerTargets` | qcom/opensource/graphics-kernel/adreno_a5xx_preempt.c:167-203 | without new work, a trigger after a finished chain picks a ring of lower priority than the last target |
| `PreemptionProtocol.PreemptionChainsTerminate` | qcom/opensource/graphics-kernel/adreno_a5xx_preempt.c:285-298 | without submissions or recovery the targets of successive switches have strictly increasing index, so there are at most as many as rings |
| `PreemptionProtocol.CallbackCompletes` | qcom/opensource/graphics-kernel/adreno_a5xx_preempt.c:254-299 | the interrupt of a finished switch makes the next ring current, refreshes WPTR, releases the state and triggers again; with CNTL set it only notes completion; otherwise it does nothing |
| `PreemptionProtocol.ScheduleCompletes` | qcom/opensource/graphics-kernel/adreno_a5xx_preempt.c:301-316 | the dispatcher does the same for a completed switch, leaves an unfinished one as it is, and triggers when idle |
| `PreemptionProtocol.TimeoutsRecover` | qcom/opensource/graphics-kernel/adreno_a5xx_preempt.c:95-143 | a timeout turns TRIGGERED into FAULTED, the worker FAULTED with CNTL clear into COMPLETE, and nothing else |
| `PreemptionProtocol.SwitchCompletes` | qcom/opensource/graphics-kernel/adreno_a5xx_preempt.c:44-143 | from every state with a switch in progress at most five CP and handler steps make its target current |
| `PreemptionProtocol.ReachesRest` | qcom/opensource/graphics-kernel/adreno_a5xx_preempt.c:17-316 | from every state of every run at most ten CP and handler steps, without new work, lead to rest on the busy ring of highest priority with everything submitted to it visible |
| `PreemptionDevice.Device.constructor` | qcom/opensource/graphics-kernel/adreno_a5xx_ringbuffer.c:99-134 | power-up is an initial state of the protocol and satisfies its invariant |
| `PreemptionDevice.Device.MovePreemptState` | qcom/opensource/graphics-kernel/adreno.h:1642-1646 | compare-and-exchange: moves exactly when the state was the expected one |
| `PreemptionDevice.Device.UpdateHardwareWptr` | qcom/opensource/graphics-kernel/adreno_a5xx_preempt.c:17-42 | leaves the hardware WPTR at the current ring's `wptr`; the timer restarts exactly when asked to or when something was unseen |
| `PreemptionDevice.Device.NextRingbuffer` | qcom/opensource/graphics-kernel/adreno_a5xx_preempt.c:146-165 | finds the lowest-index ring with unread work, or none exactly when all are empty |
| `PreemptionDevice.Device.PreemptionTrigger` | qcom/opensource/graphics-kernel/adreno_a5xx_preempt.c:167-252 | takes the protocol's Trigger step |
| `PreemptionDevice.Device.AdoptNext` | qcom/opensource/graphics-kernel/adreno_a5xx_preempt.c:75-92 | takes the protocol's Finish step and remembers the previous ring |
| `PreemptionDevice.Device.PreemptCallback` | qcom/opensource/graphics-kernel/adreno_a5xx_preempt.c:254-299 | takes the protocol's Callback step, which CallbackCompletes pins; raises no fault |
| `PreemptionDevice.Device.PreemptionDone` | qcom/opensource/graphics-kernel/adreno_a5xx_preempt.c:44-93 | takes the protocol's Done step, which ScheduleCompletes pins; faults exactly when awake and the switch is not over |
| `PreemptionDevice.Device.PreemptionSchedule` | qcom/opensource/graphics-kernel/adreno_a5xx_preempt.c:301-316 | takes the protocol's Schedule step when preemption is enabled and changes nothing otherwise |
| `PreemptionDevice.Device.PreemptionWorker` | qcom/opensource/graphics-kernel/adreno_a5xx_preempt.c:95-143 | takes the protocol's FaultWorker step; faults exactly when the state stays FAULTED |
| `PreemptionDevice.Device.PreemptionTimer` | qcom/opensource/graphics-kernel/adreno_ringbuffer.c:157-170 | moves TRIGGERED to FAULTED and nothing else |
| `PreemptionDevice.Device.RingbufferSubmit` | qcom/opensource/graphics-kernel/adreno_a5xx_ringbuffer.c:85-94 | takes the protocol's Submit step: the doorbell only when resting on that ring, the write pointer always |
| `PreemptionDevice.Device.Restart` | qcom/opensource/graphics-kernel/adreno_a5xx_preempt.c:411-460 | takes the protocol's Reset step; `next_rb` is not cleared |
| `PreemptionOwnership.StepKeepsInv` | qcom/opensource/graphics-kernel/adreno_a5xx_preempt.c:128-316 | every single shared access of any thread, and every step of the timer and the CP at any time, keeps the invariant of claims, mutex and next ring |
| `PreemptionOwnership.OwnershipIsExclusive` | qcom/opensource/graphics-kernel/adreno_a5xx_preempt.c:177-316 | in every interleaving, whenever timer and interrupts come: at most one thread is between claiming a state and its last store to it, and the state is the one it claimed; outside a finishing handler TRIGGERED, FAULTED and COMPLETE come with a next ring other than the current one |
| `PreemptionOwnership.FinishAlone` | qcom/opensource/graphics-kernel/adreno_a5xx_preempt.c:263-296 | the accesses of a finishing handler, left alone, have the effect of the protocol's Finish |
| `PreemptionOwnership.TriggerAlone` | qcom/opensource/graphics-kernel/adreno_a5xx_preempt.c:177-251 | those of a trigger that finds another ring busy have the effect of the protocol's StartSwitch |
| `PreemptionOwnership.CompleteAlone` | qcom/opensource/graphics-kernel/adreno_a5xx_preempt.c:104-113 | those of the fault worker, and of an interrupt with CNTL set, note the completion |
| `PreemptionOwnership.StepKeepsWindow` | qcom/opensource/graphics-kernel/adreno_a5xx_preempt.c:248-251 | outside the window between the change to TRIGGERED and the CNTL write, no step lets a second thread reach that write or a switch be outstanding there |
| `PreemptionOwnership.CntlWrittenWhenIdle` | qcom/opensource/graphics-kernel/adreno_a5xx_preempt.c:248-251 | CNTL is written only with no switch outstanding, up to any point before the timer or a CP_SW interrupt comes into that window |
| `PreemptionOwnership.CntlWrittenTwice` | qcom/opensource/graphics-kernel/adreno_a5xx_preempt.c:239-251 | a run with an early timer in which a thread is about to write CNTL with a switch outstanding |
| `PreemptionOwnership.DisturbanceBreaksOwnership` | qcom/opensource/graphics-kernel/adreno_a5xx_preempt.c:248-251 | when the triggering thread counts as owner until the CNTL write, every event in the window ends exclusive ownership with that very step |
| `PreemptionOwnership.OwnershipIffUndisturbed` | qcom/opensource/graphics-kernel/adreno_a5xx_preempt.c:248-251 | counted so, a run has a single owner, holding the state it claimed, in all its states iff neither the timer nor a CP_SW interrupt ever comes into the window |
| `PreemptionOwnership.EarlyTimerBreaksOwnership` | qcom/opensource/graphics-kernel/adreno_a5xx_preempt.c:239-251 | a run in which the timer expires between the state change and the CNTL write gives two owners |
| `PreemptionOwnership.StaleInterruptBreaksOwnership` | qcom/opensource/graphics-kernel/adreno_a5xx_preempt.c:254-283 | a run in which a CP_SW interrupt of an earlier switch is delivered in that window gives two owners |
| `Pm4.HeadOfHeader` | qcom/opensource/graphics-kernel/adreno_pm4types.h:201-262 | a header word of any of the four types carries exactly its opcode or register and its payload count, with correct parities |
| `Pm4.HeaderWords` | qcom/opensource/graphics-kernel/adreno_pm4types.h:201-225 | header words of all four types, bit for bit |
| `Pm4.DecodeEncode` | qcom/opensource/graphics-kernel/adreno_pm4types.h:201-262 | parsing the words of any well-formed packet list gives the list back |
| `Parity.LookupIsParity` | qcom/opensource/graphics-kernel/adreno_pm4types.h:188-194 | the nibble fold and table lookup compute the odd-parity bit of every 32-bit word |
| `DrawObjects.VerifyCmdobj` | qcom/opensource/graphics-kernel/adreno.c:2965-3022 | accepts exactly the lists whose every buffer passes `_verify_ib` and that ask for no profiling on A3xx; the first offender decides the error; wake_on_touch is cleared iff a command object had all its buffers verified, also when the list is then refused |
| `DrawObjects.QueuedIff` | qcom/opensource/graphics-kernel/adreno.c:2965-2987 | a buffer passes iff 0 < size < 4 MB, in range and dword aligned |
| `DrawObjects.ExecutedIff` | qcom/opensource/graphics-kernel/adreno_a5xx_ringbuffer.c:455-468 | a buffer is executed iff it is not marked skipped and is no preamble or preambles are asked for |
| `A5xxCommands.CommandsExecuteWantedIbs` | qcom/opensource/graphics-kernel/adreno_a5xx_ringbuffer.c:425-499 | for every list and flag set the words parse back and execute exactly the wanted buffers, in order, with full address and exact dword count, between the profiling samples; other buffers are NOP payload |
| `A5xxCommands.WriteCommands` | qcom/opensource/graphics-kernel/adreno_a5xx_ringbuffer.c:425-499 | writes those packets within 32 + 5 * numibs dwords |
| `A5xxCommands.PutIbs` | qcom/opensource/graphics-kernel/adreno_a5xx_ringbuffer.c:452-469 | the loop over the list, at most five dwords a buffer |
| `A5xxCommands.SwallowedWords` | qcom/opensource/graphics-kernel/adreno_a5xx_ringbuffer.c:456-467 | the NOP header of count 4 makes the following packet its payload |
| `A5xxCommands.CountNeedsTheCheck` | qcom/opensource/graphics-kernel/adreno_a5xx_ringbuffer.c:466-467 | the 20-bit mask leaves the dword count exact iff the size passed `_verify_ib`'s bound |
| `A5xxCommands.Ringbuffer.TakeSlot` | qcom/opensource/graphics-kernel/adreno_a5xx_ringbuffer.c:305-333 | fills the current profiling slot, leaves the others, and moves on |
| `A5xxCommands.Ringbuffer.BuildCommands` | qcom/opensource/graphics-kernel/adreno_a5xx_ringbuffer.c:425-499 | both samples of a submission live in different slots; the words stay in the buffer |
| `A5xxCommands.AloneDecodes` | qcom/opensource/graphics-kernel/adreno_a5xx_ringbuffer.c:289-303 | what the CP parses in a filled slot is exactly the sampling packet |
| `A5xxCommands.AlwaysOnSamples` | qcom/opensource/graphics-kernel/adreno_a5xx_ringbuffer.c:289-303 | a profiling packet copies the always-on counter, both halves where reliable, to its target |
| `A5xxCommands.CommandsSample` | qcom/opensource/graphics-kernel/adreno_a5xx_ringbuffer.c:442-491 | a profiled submission samples into its start cell before its buffers and into its retire cell behind them |
| `A5xxCommands.CommandMarkers` | qcom/opensource/graphics-kernel/adreno_a5xx_ringbuffer.c:439-499 | the start and end markers, and the render mode cleared before yields are enabled |
| `A3xxCommands.CommandsExecuteWantedIbs` | qcom/opensource/graphics-kernel/adreno_a3xx_ringbuffer.c:389-423 | the same in the legacy format, for 32-bit addresses |
| `A3xxCommands.WriteCommands` | qcom/opensource/graphics-kernel/adreno_a3xx_ringbuffer.c:389-423 | writes those packets within 4 + 4 * numibs dwords |
| `A3xxCommands.SwallowedWords` | qcom/opensource/graphics-kernel/adreno_a3xx_ringbuffer.c:410-418 | the NOP header of count 3 makes the following packet its payload |
| `RingSpace.Ring.AllocSpace` | qcom/opensource/graphics-kernel/adreno_ringbuffer.c:67-104 | reserves contiguous dwords holding nothing unread, keeps all unread words, never lets the write position catch up with the read position, wraps behind a NOP that swallows the rest, and fails exactly when neither place is large enough |
| `RingSpace.RefusedIffNothingFree` | qcom/opensource/graphics-kernel/adreno_ringbuffer.c:67-104 | refused iff neither the dwords at the write position nor those at the start are free of unread words and clear of the read position |
| `RingSpace.Ring.Trim` | qcom/opensource/graphics-kernel/adreno_a5xx_ringbuffer.c:280-281 | gives the unused tail of an allocation back |
| `RingSpace.ToReadGrows` | qcom/opensource/graphics-kernel/adreno_ringbuffer.c:67-104 | after an allocation is filled, the CP has to read what it had to read before, then the NOP that skips the end of the buffer if it wrapped, then the words written |
| `RingSpace.ReadOn` | qcom/opensource/graphics-kernel/adreno_ringbuffer.c:67-104 | reading on moves the read position around the buffer and takes the words off the front |
| `RingSpace.PositionsAgree` | qcom/opensource/graphics-kernel/adreno.h:1513-1516 | comparing positions in the circular buffer is comparing counts as long as less than a buffer is unread |
| `RingSpace.TrailerFits` | qcom/opensource/graphics-kernel/adreno_a5xx_ringbuffer.c:283-284 | after a submission the three dwords of the trailer always fit, however far the CP has read |
| `A5xxSubmission.WriteSubmission` | qcom/opensource/graphics-kernel/adreno_a5xx_ringbuffer.c:165-278 | writes exactly the packets of the submission around any well-formed payload in at most 61 dwords more than the payload |
| `A5xxEffects.ContextSop` | qcom/opensource/graphics-kernel/adreno_a5xx_ringbuffer.c:183-190 | at the payload and behind it the context's sop cell holds the call's timestamp |
| `A5xxEffects.ContextEop` | qcom/opensource/graphics-kernel/adreno_a5xx_ringbuffer.c:254-260 | the context's eop cell keeps its value until the payload is through and holds the call's timestamp at the end |
| `A5xxEffects.RefWaitHoldsSequence` | qcom/opensource/graphics-kernel/adreno_a5xx_ringbuffer.c:231-241 | behind a submission ref_wait_ts holds its sequence number |
| `A5xxEffects.OneInterruptPerSubmission` | qcom/opensource/graphics-kernel/adreno_a5xx_ringbuffer.c:247-267 | exactly one flush of a submission raises the interrupt: the context's, or the ring's without a context |
| `A5xxEffects.SubmissionCalls` | qcom/opensource/graphics-kernel/adreno_a5xx_ringbuffer.c:173-224 | a submission calls the buffer in front, what its payload calls, and the buffer behind, in this order |
| `A5xxEffects.PreemptionControls` | qcom/opensource/graphics-kernel/adreno_a5xx_preempt.c:318-391 | preemption inside the buffers is allowed exactly for a context that is not secure and asks for fine grain; yields are enabled |
| `A5xxEffects.StartOfSubmission` | qcom/opensource/graphics-kernel/adreno_a5xx_ringbuffer.c:165-167 | the first packet is the marker of a context's or of the driver's own commands |
| `A5xxEffects.EndOfSubmission` | qcom/opensource/graphics-kernel/adreno_a5xx_ringbuffer.c:269-278 | a wait for idle exactly when asked for, and with preemption a yield with interrupt as the last packet |
| `A5xxEffects.PacketWords` | qcom/opensource/graphics-kernel/adreno_a5xx_ringbuffer.c:192-266 | the words of memory writes, timestamp flushes and CP_WHERE_AM_I, bit for bit |
| `A5xxSubmission.SubmissionModes` | qcom/opensource/graphics-kernel/adreno_a5xx_ringbuffer.c:197-213 | the modes at the payload and behind the submission, from any starting mode and for any payload |
| `A5xxSubmission.SubmissionIsBalanced` | qcom/opensource/graphics-kernel/adreno_a5xx_ringbuffer.c:197-275 | started protected and not secure, a submission ends so iff its payload ends protected or was asked to run unprotected, and ends not secure or was asked to run secure; always for a payload that leaves modes alone |
| `A5xxSubmission.PutSaveAddr` | qcom/opensource/graphics-kernel/adreno_a5xx_preempt.c:318-391 | the eight words are exactly the packets around the save address |
| `A5xxSubmission.SaveAddrUnprotected` | qcom/opensource/graphics-kernel/adreno_a5xx_preempt.c:318-391 | executing them writes both halves of the save address, once each and with protection off |
| `A5xxSubmission.SaveAddrMode` | qcom/opensource/graphics-kernel/adreno_a5xx_preempt.c:318-391 | protection is on behind them, whatever it was before |
| `A5xxTimeline.Sequence.constructor` | qcom/opensource/graphics-kernel/adreno_a5xx_ringbuffer.c:144 | the counter all rings share starts at 0 |
| `A5xxTimeline.SubmitRing.constructor` | qcom/opensource/graphics-kernel/adreno_a5xx_ringbuffer.c:138-163 | the timestamp starts at 0 with an empty history |
| `A5xxTimeline.SubmitRing.AddCmds` | qcom/opensource/graphics-kernel/adreno_a5xx_ringbuffer.c:150-281 | the three error exits and what each leaves behind, the shared sequence number included; the timestamp counts the calls of the history; on success what the CP has to read grows by exactly the history's last block, `_wptr` stands exactly behind it, at most 64 + dwords used |
| `A5xxTimeline.SubmitRing.PutSubmission` | qcom/opensource/graphics-kernel/adreno_a5xx_ringbuffer.c:165-281 | numbers the submission and writes it into the reserved space, so that the words still to be read are extended by exactly its packets |
| `A5xxTimeline.SubmitRing.RingbufferSubmit` | qcom/opensource/graphics-kernel/adreno_a5xx_ringbuffer.c:72-93 | `wptr` follows `_wptr`; when asked for, what the CP has to read grows by exactly a CP_WHERE_AM_I; an error exactly when that finds no room |
| `A5xxTimeline.PendingShrinks` | qcom/opensource/graphics-kernel/adreno_a5xx_ringbuffer.c:138-287 | a CP that executes a packet moves on around the buffer and has exactly the remaining packets to read |
| `A5xxTimeline.RingHoldsStream` | qcom/opensource/graphics-kernel/adreno_a5xx_ringbuffer.c:138-287 | over any number of calls, wraps and trailers, a CP that has executed k packets has exactly the rest of the history's stream in the ring to read |
| `A5xxTimeline.TimestampsRetireInOrder` | qcom/opensource/graphics-kernel/adreno_a5xx_ringbuffer.c:156-267 | over any history of accepted and failed calls (short of 32-bit wrap), at every point of execution eop <= sop <= `rb->timestamp`, both only grow, and after an accepted call has retired eop is its timestamp |
| `A5xxTimeline.FullyRetired` | qcom/opensource/graphics-kernel/adreno_a5xx_ringbuffer.c:247-267 | everything executed: both timestamps are the last accepted submission's |
| `A5xxContextSwitch.PagetableSwitch` | qcom/opensource/graphics-kernel/adreno_a5xx_ringbuffer.c:14-50 | 18 words that are the table-switch packets, none for the default table |
| `A5xxContextSwitch.TableSwitchEffect` | qcom/opensource/graphics-kernel/adreno_a5xx_ringbuffer.c:25-47 | behind the packets both the SMMU and the ring's scratch copy hold the new table |
| `A5xxContextSwitch.TableSwitchIsHarmless` | qcom/opensource/graphics-kernel/adreno_a5xx_ringbuffer.c:25-47 | table and scratch copy differ at no point where the CP may leave the ring |
| `A5xxContextSwitch.ContextSwitch` | qcom/opensource/graphics-kernel/adreno_a5xx_ringbuffer.c:335-371 | exactly 12 words without and 30 with a page-table switch, inside the buffer of 32, that are the context-switch packets |
| `A5xxContextSwitch.TableSwitchWords` | qcom/opensource/graphics-kernel/adreno_a5xx_ringbuffer.c:25-47 | the eighteen words of a table switch, one by one |
| `A5xxContextSwitch.ContextIdIsRecorded` | qcom/opensource/graphics-kernel/adreno_a5xx_ringbuffer.c:335-371 | the context id reaches the ring's and the global current-context cell |
| `A5xxContextSwitch.ContextRegisters` | qcom/opensource/graphics-kernel/adreno_a5xx_ringbuffer.c:335-371 | the registers a context switch writes, in order: privileged access on and off around a table switch, then the UCHE invalidate |
| `A5xxContextSwitch.SubmissionIsHarmless` | qcom/opensource/graphics-kernel/adreno_a5xx_ringbuffer.c:138-287 | wrapping a harmless payload into a submission keeps it harmless |
| `A5xxBlocks.UserBlockSubmittable` | qcom/opensource/graphics-kernel/adreno_a5xx_ringbuffer.c:414-523 | every user submission is one the continuity result covers |
| `A5xxBlocks.SwitchBlockSubmittable` | qcom/opensource/graphics-kernel/adreno_a5xx_ringbuffer.c:335-371 | so is every context switch that writes its own ring's scratch copy |
| `PageTableContinuity.SwitchLoadsTableInForce` | qcom/opensource/graphics-kernel/adreno_a5xx_preempt.c:213-232 | in every run, the table loaded at a switch is the one the incoming ring had last put in force, or the default |
| `PageTableContinuity.TableSurvivesPreemption` | qcom/opensource/graphics-kernel/adreno_a5xx_preempt.c:213-232 | a ring finds at switch-in the table that was in force when it was switched out |
| `PageTableContinuity.RunKeepsInv` | qcom/opensource/graphics-kernel/adreno.h:1547-1565 | every ring's scratch copy agrees with its consumed stream in every run; recovery resets it to the default |
| `GpmuImages.ReadBlockHeader` | qcom/opensource/graphics-kernel/adreno_a5xx.c:757-806 | accepts exactly the headers of one to five whole fields, correctly identified and without an outdated major version, that leave room for a body; reads no word behind the header |
| `GpmuImages.AcceptedIsAnImage` | qcom/opensource/graphics-kernel/adreno_a5xx.c:757-806 | an accepted block is the serialization of the image read from it |
| `GpmuImages.ImageIsAccepted` | qcom/opensource/graphics-kernel/adreno_a5xx.c:757-806 | every serialized image is accepted and read back, whatever follows |
| `Tilings.WalkSplits` | qcom/opensource/graphics-kernel/adreno_a5xx.c:860-883 | a walk splits words into well-formed items and a rest that starts none |
| `Tilings.ExactTiling` | qcom/opensource/graphics-kernel/adreno_a5xx.c:860-883 | walking to the end is the same as being written from exactly that list of items |
| `Tilings.WalkPassesItems` | qcom/opensource/graphics-kernel/adreno_a5xx.c:860-883 | well-formed items at the front are walked over first, whatever follows |
| `RegFile.ReadLm` | qcom/opensource/graphics-kernel/adreno_a5xx.c:869-880 | the saved slice is the opcode part of the LM block; the check at line 876 never fires |
| `RegFile.ReadBlock` | qcom/opensource/graphics-kernel/adreno_a5xx.c:861-882 | refuses exactly what starts no well-formed block and steps over exactly one block otherwise; all reads in bounds |
| `RegFile.StartsInWords` | qcom/opensource/graphics-kernel/adreno_a5xx.c:757-806 | word by word which words start a block that is not refused |
| `RegFile.Loader.constructor` | qcom/opensource/graphics-kernel/adreno_a5xx.c:830-838 | no LM sequence is known at first |
| `RegFile.Loader.LoadRegfile` | qcom/opensource/graphics-kernel/adreno_a5xx.c:830-892 | keeps the file iff the walk reaches its end and an LM sequence is known; the sequence is the last LM block walked over, also on failure |
| `RegFile.KeptFiles` | qcom/opensource/graphics-kernel/adreno_a5xx.c:830-892 | a file is kept iff it is a non-empty list of well-formed blocks and an LM sequence is among them or known before |
| `RegFile.DanglingIff` | qcom/opensource/graphics-kernel/adreno_a5xx.c:860-888 | a load leaves the device with a sequence of a released file iff well-formed blocks with an LM block among them stand at its front and the file is not a list of well-formed blocks as a whole |
| `RegFile.DanglingSequence` | qcom/opensource/graphics-kernel/adreno_a5xx.c:878-888 | what the device then points at are the opcodes of the last LM block walked over, whatever it had before |
| `RegFile.RefusedFileLeavesItsSequence` | qcom/opensource/graphics-kernel/adreno_a5xx.c:878-888 | a file of eight words for which it happens |
| `RegSequence.ExecuteRegSequence` | qcom/opensource/graphics-kernel/adreno_a5xx.c:894-924 | over the words: opcode 1 and 2 write the fourth word to the register in the second, 3 pauses; performs exactly the complete operations at the front, in order; succeeds iff nothing is left over |
| `RegSequence.PerformsIsWalk` | qcom/opensource/graphics-kernel/adreno_a5xx.c:894-924 | what the words perform is what decoding them and running the result gives |
| `RegSequence.SuccessIsExactTiling` | qcom/opensource/graphics-kernel/adreno_a5xx.c:894-924 | success iff the words are a concatenation of complete operations, which is unique |
| `RegSequence.FailureRunsTheValidPrefix` | qcom/opensource/graphics-kernel/adreno_a5xx.c:920-921 | on failure the rest starts with no complete operation |
| `RegSequence.FaithfulIffNarrow` | qcom/opensource/graphics-kernel/adreno_a5xx.c:902-914 | the effects are the 64-bit writes the opcodes ask for iff every register and value fits 32 bits |
| `RegSequence.WideWriteLosesItsUpperHalf` | qcom/opensource/graphics-kernel/adreno_a5xx.c:908-915 | a 64-bit write of 2^32 stores 0 |
| `GpmuLoad.CreateLoadCmds` | qcom/opensource/graphics-kernel/adreno_a5xx.c:485-540 | the words are the load packets and never exceed size + size / limit + 1 + 4, for every microcode and chunk limit |
| `GpmuLoad.LoadWritesUcode` | qcom/opensource/graphics-kernel/adreno_a5xx.c:485-540 | executing them writes every microcode word to INST_RAM_BASE + i once and in order, with protection off for exactly these writes and on behind them |
| `GpmuLoad.FindUcode` | qcom/opensource/graphics-kernel/adreno_a5xx.c:581-602 | finds the microcode iff the file is loadable, within bounds; Einval only for a refused header; an empty file is refused whatever stray word is read for its length |
| `GpmuLoad.Gpmu.constructor` | qcom/opensource/graphics-kernel/adreno_a5xx.c:562-564 | no commands before a load |
| `GpmuLoad.Gpmu.LoadGpmuFirmware` | qcom/opensource/graphics-kernel/adreno_a5xx.c:547-611 | commands appear iff the file is loadable and memory is there; every refusal but that of the header ends with status 0 and no commands |
| `GpmuLoad.LoadableFiles` | qcom/opensource/graphics-kernel/adreno_a5xx.c:581-602 | loadable iff the file starts with a serialized image whose body fits the instruction RAM, which is then the one loaded |
| `PowerupList.UpdateOnReplay` | qcom/opensource/graphics-kernel/adreno_a6xx.c:1994-2018 | an update keeps the list sealed by the enabling entry, and sets the register on replay unless a second entry hides it |
| `PowerupList.ActsLikeAMap` | qcom/opensource/graphics-kernel/adreno_a6xx.c:1994-2018 | replay after an update is the map update iff the register is not repeated or already has the value |
| `PowerupList.RepeatedRegisterIgnoresUpdates` | qcom/opensource/graphics-kernel/adreno_a6xx.c:26-131 | a list naming UCHE_GBIF_GX_CONFIG twice, as the A615 lists do, would ignore an update of it |
| `PowerupList.SealedIsUpdated` | qcom/opensource/graphics-kernel/adreno_a6xx.c:2006-2018 | on a sealed list the overwriting update is the insertion in front of the enabling entry |
| `PowerupList.UpdateAfterSecondPatch` | qcom/opensource/graphics-kernel/adreno_a6xx.c:1994-2018 | on a list patched twice it overwrites the stale entry behind the first enabling one and lets the list reach one entry further |
| `PowerupList.ReplayAfterSecondPatch` | qcom/opensource/graphics-kernel/adreno_a6xx.c:418-488 | replaying a list patched twice writes the stale entries over the captured values, with the counters already enabled |
| `PowerupList.UpdateReplayAfterSecondPatch` | qcom/opensource/graphics-kernel/adreno_a6xx.c:1994-2018 | an update then has its effect iff nothing behind it gives the register another value last |
| `PowerupList.ListRefinesMap` | qcom/opensource/graphics-kernel/adreno_a6xx.c:1976-2026 | over any sequence of updates outside the static part the replayed list equals the updated map, PERFCTR_CNTL is enabled last and once, and the static entries stay in front unchanged |
| `PowerupList.LatestCountable` | qcom/opensource/graphics-kernel/adreno_a6xx.c:1976-2026 | the map holds the countable of the latest granted request for each select |
| `PowerupList.OthersKept` | qcom/opensource/graphics-kernel/adreno_a6xx.c:1976-2026 | every other register keeps its captured value |
| `PowerupList.List.constructor` | qcom/opensource/graphics-kernel/adreno_a6xx.c:210-216 | the buffer starts empty |
| `PowerupList.List.Patch` | qcom/opensource/graphics-kernel/adreno_a6xx.c:418-488 | in front of `list_offset` the captures of the IFPC-only lists, behind it those of the common list, the family's own and the QoS register, then the enabling entry; `list_length` grows by twice their number, so the list is sealed iff it was empty before |
| `PowerupList.List.PerfcounterUpdate` | qcom/opensource/graphics-kernel/adreno_a6xx.c:1976-2026 | busy changes nothing; otherwise the rewritten list, sealed or not, and on a sealed one the updated list; `list_length` twice its entries, `list_offset` untouched; the register write exactly when asked for |
| `Counters.ReadAlwaysonGmu` | qcom/opensource/graphics-kernel/adreno_a6xx.c:2061-2076 | never outside the values the counter passed during the call; with less than 2^32 ticks one held at a read of the lower half, exactly which one depending on whether the upper half moved |
| `Counters.EveryValueWasHeld` | qcom/opensource/graphics-kernel/adreno_a6xx.c:2061-2076 | a counter that counts by ones held every such value, so the read is linearizable whatever the delays |
| `Counters.ReadAlwaysonPlain` | qcom/opensource/graphics-kernel/adreno_a6xx.c:2058-2060 | without the GMU the value is right iff the upper half did not move, else 2^32 ahead |
| `Counters.TornRead` | qcom/opensource/graphics-kernel/adreno_a6xx.c:2058-2060 | a counter going from 0xFFFFFFFF to 0x100000000 between the reads is read as 0x1FFFFFFFF, which it never holds |
| `Counters.CounterDelta` | qcom/opensource/graphics-kernel/adreno.h:1567-1586 | the reported advance; no register means nothing reported and nothing stored |
| `Counters.DeltasAddUp` | qcom/opensource/graphics-kernel/adreno.h:1567-1586 | over any run the reports fall short of the true advance by exactly one per wrap out of a non-zero reading and all of every interval from a stored zero |
| `InterruptStorm.Detector.constructor` | qcom/opensource/graphics-kernel/adreno_a5xx.c:2147-2152 | the static variables start at 0, the interrupt unmasked |
| `InterruptStorm.Detector.CpCallback` | qcom/opensource/graphics-kernel/adreno_a5xx.c:2147-2195 | takes the detector's Interrupt step and dispatches exactly when not suspended before or after |
| `InterruptStorm.Detector.StormWorker` | qcom/opensource/graphics-kernel/adreno_a5xx.c:2119-2145 | takes the Unmask and Resume steps, in this order |
| `InterruptStorm.MaskedIsSuspended` | qcom/opensource/graphics-kernel/adreno_a5xx.c:2119-2195 | after every history a masked interrupt is suspended, and suspended exactly while a worker is on the way |
| `InterruptStorm.CountIsRepeats` | qcom/opensource/graphics-kernel/adreno_a5xx.c:2169-2190 | the counter is the number of unchanged reads in a row, modulo its width |
| `InterruptStorm.SuspensionIffTwoRepeats` | qcom/opensource/graphics-kernel/adreno_a5xx.c:2169-2187 | an interrupt is suspended exactly at the second repeated read (modulo 2^32) |
| `InterruptStorm.SuspensionMasks` | qcom/opensource/graphics-kernel/adreno_a5xx.c:2171-2187 | a suspension masks the interrupt and schedules the worker; a start unmasks |
| `InterruptStorm.MaskedUntilUnmask` | qcom/opensource/graphics-kernel/adreno_a5xx.c:2119-2187 | from a suspension on, without a start or another suspension, the interrupt is masked exactly until the worker unmasks it |
| `InterruptStorm.SuspensionsAreSeparated` | qcom/opensource/graphics-kernel/adreno_a5xx.c:2169-2190 | between two suspensions the handler reads a changed timestamp, or 2^32 unchanged ones |
| `CrashDump.ScriptReadsBack` | qcom/opensource/graphics-kernel/adreno_a5xx_snapshot.c:1053-1106 | the dumper parses a terminated script back into its commands |
| `CrashDump.StoresTileTheBuffer` | qcom/opensource/graphics-kernel/adreno_a5xx_snapshot.c:1185-1219 | for arbitrary lists the dumper's stores are consecutive dwords from the buffer's start, each written once, with the captured values |
| `CrashScript.ComputeSizes` | qcom/opensource/graphics-kernel/adreno_a5xx_snapshot.c:1125-1163 | the first pass adds up exactly the bytes of script and of data |
| `CrashScript.InitShader` | qcom/opensource/graphics-kernel/adreno_a5xx_snapshot.c:1053-1081 | writes the four captures of a shader block and records the first one's offset |
| `CrashScript.WordsOfCapture` | qcom/opensource/graphics-kernel/adreno_a5xx_snapshot.c:1053-1106 | the qwords of every capture, range or bank, at its place in the script |
| `CrashScript.CrashdumpInit` | qcom/opensource/graphics-kernel/adreno_a5xx_snapshot.c:1108-1220 | the script takes exactly script_size + 16 bytes, the captures end exactly at data_size, the dumper parses it into them, and the recorded offsets are theirs |
| `CrashReadBack.BufferHolds` | qcom/opensource/graphics-kernel/adreno_a5xx_snapshot.c:1185-1219 | memory after consecutive stores: the buffer holds the values and nothing outside it is touched |
| `CrashReadBack.DumpFillsBuffer` | qcom/opensource/graphics-kernel/adreno_a5xx_snapshot.c:1185-1219 | once the dumper has parsed and run a script for a list of captures, the buffer in memory holds the value of every one |
| `CrashReadBack.SnapshotRegisters` | qcom/opensource/graphics-kernel/adreno_a5xx_snapshot.c:678-721 | lists as many whole ranges as fit, each register with the next word |
| `CrashReadBack.MainListReadsBack` | qcom/opensource/graphics-kernel/adreno_a5xx_snapshot.c:678-721 | once the dumper has run the script, the main list read back from memory equals reading the registers directly, for any number of ranges that fit |
| `CrashReadBack.DumpHlsqRegs` | qcom/opensource/graphics-kernel/adreno_a5xx_snapshot.c:797-835 | all sets or none, each register with its word at the recorded offset |
| `CrashReadBack.HlsqReadsBack` | qcom/opensource/graphics-kernel/adreno_a5xx_snapshot.c:797-835 | once the dumper has run the script, the recorded offsets lead to exactly what the aperture showed for each set |
| `CrashReadBack.ShaderBankCaptured` | qcom/opensource/graphics-kernel/adreno_a5xx_snapshot.c:1053-1081 | the buffer holds for bank j of a block what the aperture shows with the block's state type and bank j selected |
| `CrashReadBack.HlsqReadsLikeDirect` | qcom/opensource/graphics-kernel/adreno_a5xx_snapshot.c:797-835 | where the aperture mirrors the sets, the whole section read back from memory equals direct register reads |
| `CrashReadBack.DumpAndReadBack` | qcom/opensource/graphics-kernel/adreno_a5xx_snapshot.c:1108-1220 | from the tables to the snapshot: the script written, run by the dumper and read back shows the main list as direct reads do and the HLSQ sets as the aperture did |
| `CrashReadBack.BankReadBackOffset` | qcom/opensource/graphics-kernel/adreno_a5xx_snapshot.c:622-640 | a shader bank is read back from where it was captured iff it is the first or empty |
| `CrashReadBack.GpmuReadBackOffset` | qcom/opensource/graphics-kernel/adreno_a5xx_snapshot.c:678-684 | the GPMU list is read back from where it was captured iff the main list is empty |

## Left out

- Command buffers: the streams of A5xx, A3xx and the GPMU loader are modelled as the filled prefix of their
  buffer (a sequence that grows, with a proved bound), not as arrays written in place; the crash-dump script
  and its tables' offset fields likewise.
- PreemptionProtocol positions count dwords from the last reset; `RingSpace.PositionsAgree` relates them to
  the circular buffer.
- CP hardware: that it saves and loads WPTR through the preemption records, clears CONTEXT_SWITCH_CNTL after
  loading, leaves a ring only behind a yield packet or inside an indirect buffer, and is cleared with all
  rings by a reset, is assumed.
- PreemptionOwnership.OwnershipIffUndisturbed: recovery happens with no handler running; whether a real timer
  or interrupt can come between two consecutive accesses of the trigger is not decided here.
- A5xxTimeline.TimestampsRetireInOrder: short of a wrap of the 32-bit timestamp, with event writes landing in
  order, and for payloads that do not write the ring's own timestamps.
- A5xxCommands.CommandsExecuteWantedIbs: what the indirect buffers themselves do is not modelled.
- A3xxCommands.CommandsExecuteWantedIbs: addresses below 2^32, which is what A3xx maps.
- PageTableContinuity.SwitchLoadsTableInForce: per-process page tables only; page-table switches on behalf of
  the default table emit nothing and are not tracked.
- PowerupList.List.Patch: requires room in the buffer, which the source does not check.
- PowerupList.List.PerfcounterUpdate: requires the words it writes to lie in the buffer, which the source does
  not check; the lock's own handshake is a parameter.
- CrashScript.CrashdumpInit: sizes are unbounded integers and the two buffers are taken as allocated.
- RegFile.Loader.LoadRegfile: files of less than 2^32 words; the file request itself is not modelled.
- InterruptStorm.Detector.StormWorker: the poll of the status register is not modelled; the handler is atomic
  against the worker's two steps.
- A5xxBlocks.UserBlockSubmittable: the scratch copies overlap neither each other nor the timestamps, which is
  their layout in the scratch page and the memstore.
- PreemptionDevice: the dispatch and preemption timers appear only as `UpdateHardwareWptr`'s result and as the
  timer's own step.
- Counters.ReadAlwaysonGmu: the 64-bit counter itself does not wrap.
- A3xx `addcmds` and its power-on fixup, A3xx fault detection, the A5xx throttling clamp and AHB_ERROR masking.
- Dispatcher, A6xx/gen7 preemption, GMU and HFI firmware interfaces, power-state transitions, device tree,
  sysfs, debugfs, tracing, register tables and perfcounter tables.
- Memory barriers and the implementation of mutexes, spinlocks, timers and work queues.
