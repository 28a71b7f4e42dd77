# Verified model of the libata port's schedulers, recovery loops and encoders

A Dafny model of the self-contained logic in the VMware port of Linux libata and of some of its
SATA and PATA drivers, with proofs of what that logic is for.  `dafny verify dfyconfig.toml` checks
everything.

## What is modelled

- **Software NCQ** (`DeferQueue`, `SwncqModel`, `SwncqProofs`, `SwncqInterrupt`, `SwncqPort`,
  `SwncqStranding`): the host side of Native Command Queuing (Serial ATA Revision 2.6, section 13.6)
  in `sata_nv.c`.  The circular deferral queue refines a FIFO.  The interrupt state machine is a step
  function, proved over every run against a drive that owns SActive; what an interrupt does is also
  said in one go over its status word, its readings and the port before it; and a class with the
  driver's own fields and loops is proved to take exactly these steps.
- **Error history** (`ErrorRing`): the per-device error ring and the speed-down verdict of
  `libata-eh.c`, over the sequence of recorded errors.
- **Error handling** (`ScsiError`, `EhAction`, `EhReset`, `EhRecover`, `PmpRecover`): where failed
  commands go, the recovery actions, the bounded resets of a link, and the two retry machines of
  `ata_eh_recover` and `sata_pmp_eh_recover`.
- **Link arbitration** (`LinkArbitration`): the deferral rules over `excl_link` and
  `nr_active_links` for command-switching port multipliers (AHCI) and for sil24, over every run.
- **Translations** (`Prd`, `Adma`, `Taskfile`, `PromisePacket`): scatter lists into 64K-bounded PRD
  tables and ADMA chains, and one taskfile in four encodings.
- **PLL** (`Pll`): the integer arithmetic of `pdc_adjust_pll` with its error bound.
- `Libata` and `Remainders` hold shared types and two facts about division.

## How the source is read

- A 32-bit mask is the set of its bit positions, `|=` and `&= ~` being union and difference.  Where
  the source shifts by the poisoned `last_issue_tag`, the x86 shift is meant, which takes the count
  modulo 32: `1 << 0xfafbfcfd` is bit 29.
- Counters and addresses that wrap (the queue's `head` and `tail`, the sum and the addresses in the
  PRD loops) are computed modulo 2^32.  C's division is written out in `Plls.TruncDiv`.
- An entry of the `int` array of link tries is the number its 32 bits make: the code asks only whether
  it is zero and counts it down, which from a negative value is meant to wrap.
- What hardware answers is a parameter: the readings of an interrupt, the results of a reset or an
  identification, the sense and error masks an autopsy finds.  Theorems hold for all of them.
- A class method is proved against a function of the old state, and the theorems are about these
  functions; the class is what the driver does in place.

## Where a promise holds only under a condition

- **Software NCQ.**  A drive only clears SActive bits, and libata hands out free tags.  Two cases
  break the scheduler: an SDB that empties the drive while a backed-out command is pending and others
  wait, and one that empties the port in the same status word as an acknowledgement.
  `SwncqProofs.InterruptExact` shows that these are all the cases; `SwncqStranding` gives a run for
  each that leaves a command waiting until another one is handed over, and overtakes it.  Claims are
  about ports that are not frozen.
- **PRD tables.**  The drivers keep 32 bits of a bus address, so a segment that starts or ends above
  4 GB names other bytes; and their comparison wraps when the offset within 64K plus the length
  reaches 2^32, which loses bytes.  In every other case the table is exact
  (`PrdTables.ExactlyFaithful`, `PrdTables.PdcFaithful`).
- **AHCI's active link.**  A command that fails between `ata_qc_issue` and the driver is in flight
  without having set `active_link`; the link remembered is the busy one once any command in flight has
  reached the driver (`LinkArbitration.SwitchExcludes`, `LinkArbitration.ForgottenLink`).
- **Promise workaround.**  A last entry of a whole 64K is encoded as 0 and escapes it
  (`PrdTables.WorkaroundExact`).
- **Taskfiles.**  K2's 28-bit writes clear the previous bytes (`Taskfiles.K2Exact`); a Promise packet
  always writes the address registers and selects a device (`PromisePackets.PacketExact`).
- **PLL.**  The division comes before the range check, so a clock below 1 kHz divides by zero; and the
  bound on the output is one on the clock rounded down to kHz (`Plls.OvershootExample`).  R is the
  finest step for which F fits except just above its three limits (`Plls.PickExact`).
- **Speed-down rule 3.**  The comment at libata-eh.c:1614 says more than 8 errors, the code at
  libata-eh.c:1652 compares with 6; the model follows the code (`ErrorRings.SevenTimeoutsSuffice`).
- **Port multiplier.**  `sata_pmp_eh_recover_pmp` returns success after dropping a multiplier whose
  detaching was requested, and recovery then goes on with the host link.  If the host device is to be
  probed, that may attach a multiplier with more links, and nothing fills their entries of
  `link_tries`, an array on the stack (libata-pmp.c:1020, 1031, 1049).  A link whose PHY keeps changing
  is then tried as often as the array happens to say, up to 2^32 - 1 times; in every other case the
  loop keeps its bound (`PmpRecovers.PmpPort.Recover`, `PmpRecovers.OverrunPossible`,
  `PmpRecovers.Overrun`).

## Model

| member | source | states |
|---|---|---|
| `SwncqProofs.EveryReachableState` | vmkdrivers/src_9/drivers/ata/sata_nv.c:2102-2403 | In every state an allowed run reaches without a freeze: `qc_active` and the deferred tags are disjoint and together exactly libata's in-flight commands; work waits only behind issued work; acknowledged commands are issued, and every issued command but `last_issue_tag` is acknowledged |
| `SwncqProofs.EveryRunInOrder` | vmkdrivers/src_9/drivers/ata/sata_nv.c:2126-2259 | Over every run: commands first reach the drive in the order libata handed them over, the queue holds exactly the rest, and per tag completions plus in-flight commands equal acceptances, so each command completes at most once |
| `SwncqProofs.InterruptExact` | vmkdrivers/src_9/drivers/ata/sata_nv.c:2304-2403 | One interrupt keeps the invariant and re-issues only the live, unacknowledged, not deferred last command, if and only if it services neither an SDB that empties the drive while a backout is pending and commands wait, nor such an SDB together with an acknowledgement and no waiting command |
| `SwncqInterrupts.InterruptSends` | vmkdrivers/src_9/drivers/ata/sata_nv.c:2220-2386 | Exactly what an interrupt sends: after an SDB nothing while an acknowledged command is left, the last command again if it is all that is left, the oldest deferred one if nothing is; then the next deferred one exactly if the word holds an acknowledgement without DMA setup, none was seen since the last SDB, the drive is not BSY and a command waits |
| `SwncqInterrupts.NextOnAcknowledgement` | vmkdrivers/src_9/drivers/ata/sata_nv.c:2361-2386 | Without an SDB: nothing goes to a drive that is BSY, and the head of the queue goes exactly on an acknowledgement with no DMA setup in the word or seen earlier |
| `SwncqInterrupts.InterruptFreezes` | vmkdrivers/src_9/drivers/ata/sata_nv.c:2304-2403 | The port is frozen exactly on a hotplug and, with work at the drive, on an error of the drive, on an SDB with a DMA error, and on an acknowledgement after an SDB or a backout |
| `SwncqInterrupts.InterruptLeaves` | vmkdrivers/src_9/drivers/ata/sata_nv.c:2194-2396 | What a serviced interrupt leaves: the commands at the drive, the queue, the frames seen, the acknowledged commands and `last_issue_tag`, each read off the state before it |
| `SwncqInterrupts.InterruptCompletes` | vmkdrivers/src_9/drivers/ata/sata_nv.c:2194-2218 | Exactly what left SActive is completed if an SDB is serviced, nothing otherwise; an interrupt that is neither serviced nor freezes the port changes nothing |
| `SwncqInterrupts.SubmitSends` | vmkdrivers/src_9/drivers/ata/sata_nv.c:2126-2142 | A command handed over is sent at once exactly if nothing is at the drive, and otherwise only joins the end of the queue |
| `SwncqProofs.SdbExact` | vmkdrivers/src_9/drivers/ata/sata_nv.c:2194-2218 | For any SActive reading: the illegal-transition return is taken exactly when SActive is not a subset of `qc_active`; otherwise exactly `qc_active` minus SActive is completed |
| `SwncqProofs.IrqKeeps` | vmkdrivers/src_9/drivers/ata/sata_nv.c:2304-2403 | An interrupt that does not freeze keeps the invariant of the run, completes exactly what left SActive when it services an SDB and nothing otherwise, and re-issues only a live command |
| `SwncqProofs.SubmitKeeps` | vmkdrivers/src_9/drivers/ata/sata_nv.c:2126-2142 | Handing over a free tag keeps the invariant, whether it is issued at once or deferred |
| `SwncqProofs.RetireState` | vmkdrivers/src_9/drivers/ata/sata_nv.c:2205-2218 | Retiring leaves exactly SActive issued, and in flight exactly SActive plus the deferred tags |
| `SwncqProofs.AfterRetireState` | vmkdrivers/src_9/drivers/ata/sata_nv.c:2220-2256 | After retiring, unless a completed command is backed out while others wait: the state is sound, something is issued unless nothing is in flight, and what is sent is nothing, the one issued unacknowledged command again, or the head of the queue |
| `SwncqProofs.D2hState` | vmkdrivers/src_9/drivers/ata/sata_nv.c:2361-2386 | An acknowledgement freezes the port exactly after an SDB or backout; otherwise it keeps the state invariant, completes nothing, and sends the head of the queue exactly if there is one, the drive is not BSY and no DMA setup was seen |
| `SwncqProofs.AckAfterEmptyBreaks` | vmkdrivers/src_9/drivers/ata/sata_nv.c:2361-2372 | An acknowledgement in the same status word as the SDB that empties the port always leaves a stray acknowledged bit, the poisoned `last_issue_tag` having been shifted |
| `SwncqProofs.BackoutOfCompletedBreaks` | vmkdrivers/src_9/drivers/ata/sata_nv.c:2226-2249 | A pending backout of a command that is no longer at the drive, with others waiting, always breaks the state invariant or re-issues a command that is not live at the drive |
| `SwncqStranding.AcknowledgementAfterEmpty` | vmkdrivers/src_9/drivers/ata/sata_nv.c:2220-2372 | A concrete run of nine events with the first bad case ends with a command waiting, nothing issued and the port not frozen |
| `SwncqStranding.BackoutOfACompletedCommand` | vmkdrivers/src_9/drivers/ata/sata_nv.c:2226-2249 | A concrete run of seven events with the second bad case ends stranded in the same way |
| `SwncqStranding.StrandedUntilSubmit` | vmkdrivers/src_9/drivers/ata/sata_nv.c:2326-2327 | A stranded port ignores every interrupt but a hotplug until another command is handed over |
| `SwncqStranding.NextIsSentFirst` | vmkdrivers/src_9/drivers/ata/sata_nv.c:2126-2142 | That command is sent at once and the waiting ones stay where they are |
| `SwncqStranding.StrandedIsOvertaken` | vmkdrivers/src_9/drivers/ata/sata_nv.c:2126-2142 | So it overtakes them: from then on first dispatch no longer follows the order libata handed commands over in |
| `SwncqPorts.Port.HostInterrupt` | vmkdrivers/src_9/drivers/ata/sata_nv.c:2304-2403 | The handler on the port's fields, with every early return, is the step of the model: new state, completions and what is sent, for all inputs |
| `SwncqPorts.Port.Rest` | vmkdrivers/src_9/drivers/ata/sata_nv.c:2361-2396 | Its part from the D2H bit on; it sends nothing unless there is an acknowledgement without DMA setup and the drive is not BSY |
| `SwncqPorts.Port.Sdbfis` | vmkdrivers/src_9/drivers/ata/sata_nv.c:2169-2259 | Success exactly without a DMA error and with SActive inside `qc_active`; an error leaves everything; otherwise the model's SDB step |
| `SwncqPorts.Port.CompleteDone` | vmkdrivers/src_9/drivers/ata/sata_nv.c:2205-2218 | The loop over the done mask completes exactly its live tags and updates all four masks |
| `SwncqPorts.Port.Continue` | vmkdrivers/src_9/drivers/ata/sata_nv.c:2220-2258 | What follows the loop, as the model's step |
| `SwncqPorts.Port.QcIssue` | vmkdrivers/src_9/drivers/ata/sata_nv.c:2126-2142 | Issue or defer is the model's acceptance |
| `SwncqPorts.Port.QcFromDq` | vmkdrivers/src_9/drivers/ata/sata_nv.c:1797-1812 | The head of the queue is taken, its command returned if it is live, and the warning stays silent |
| `SwncqPorts.Port.PpReinit` | vmkdrivers/src_9/drivers/ata/sata_nv.c:1824-1835 | The port is back in its initial state but for libata's in-flight set |
| `DeferQueues.DeferQueue.Push` | vmkdrivers/src_9/drivers/ata/sata_nv.c:1786-1795 | On the FIFO sequence the ring represents, across wrap-around of its 32-bit counters: the tag is appended; `defer_bits` stays the set of queued tags, they stay distinct, and the queue-full warning cannot fire |
| `DeferQueues.DeferQueue.Pop` | vmkdrivers/src_9/drivers/ata/sata_nv.c:1797-1812 | The oldest tag is removed, or nothing happens on an empty queue; its bit was set |
| `DeferQueues.DeferQueue.Reset` | vmkdrivers/src_9/drivers/ata/sata_nv.c:1824-1830 | The queue is empty |
| `DeferQueues.WindowPush` | vmkdrivers/src_9/drivers/ata/sata_nv.c:1790-1794 | Storing at `tail` appends to the window and overwrites no queued entry, for every power-of-two size up to 32 and every counter value |
| `DeferQueues.WindowPop` | vmkdrivers/src_9/drivers/ata/sata_nv.c:1803-1807 | Poisoning the slot at `head` and stepping it drops exactly the first entry |
| `DeferQueues.SlotIgnoresWrap` | vmkdrivers/src_9/drivers/ata/sata_nv.c:1794-1807 | The slot of a counter is the same whether or not the counter wrapped at 2^32 |
| `DeferQueues.DistinctBelow` | vmkdrivers/src_9/drivers/ata/sata_nv.c:1790-1791 | Pigeonhole: distinct tags below n are at most n |
| `ErrorRings.HistoryIsNewestErrors` | vmkdrivers/src_92/drivers/ata/libata-eh.c:246-260 | A ring of n slots holds exactly the last n recorded errors, newest first |
| `ErrorRings.HistoryPush` | vmkdrivers/src_92/drivers/ata/libata-eh.c:246-260 | Stepping the cursor and overwriting pushes on the history; an empty mask hides all older entries |
| `ErrorRings.ErrorRing.Record` | vmkdrivers/src_92/drivers/ata/libata-eh.c:246-260 | The new history is the old one with the error in front and the oldest dropped; an empty mask loses it |
| `ErrorRings.ErrorRing.Clear` | vmkdrivers/src_92/drivers/ata/libata-eh.c:271-274 | The history is empty |
| `ErrorRings.ErrorRing.VerifyTop` | vmkdrivers/src_92/drivers/ata/libata-eh.c:262-269 | The newest error is found if there is one; clearing its dubious flag changes nothing else |
| `ErrorRings.ErrorRing.CountErrors` | vmkdrivers/src_92/drivers/ata/libata-eh.c:276-295 | Walking the ring tallies, per category, the errors up to the first one that is too old |
| `ErrorRings.ErrorRing.MapRing` | vmkdrivers/src_92/drivers/ata/libata-eh.c:276-295 | The walk itself, backwards around the ring to an unused slot, an entry that is too old, or all the way round, accumulates exactly the recorded errors that are not too old |
| `ErrorRings.MapEntry` | vmkdrivers/src_92/drivers/ata/libata-eh.c:276-295 | One turn of it: it stops exactly where the recorded errors that are not too old end |
| `ErrorRings.CountersMean` | vmkdrivers/src_92/drivers/ata/libata-eh.c:1523-1570 | Accumulating with a flag that is never reset counts each error in the category its own run of newer errors gives it |
| `ErrorRings.DubiousRunOnly` | vmkdrivers/src_92/drivers/ata/libata-eh.c:1523-1549 | The dubious categories count only the newest unbroken run of errors on an unverified transfer |
| `ErrorRings.ScanIsWindow` | vmkdrivers/src_92/drivers/ata/libata-eh.c:1557-1570 | On a chronological history the scan counts exactly the errors inside the time window |
| `ErrorRings.HistoryIsChronological` | vmkdrivers/src_92/drivers/ata/libata-eh.c:246-260 | With a clock that never runs backwards every history is chronological |
| `ErrorRings.ErrorRing.Verdict` | vmkdrivers/src_92/drivers/ata/libata-eh.c:1629-1670 | Each of the four verdict bits is set exactly when there are more than 1, 3 or 6 errors of the kinds its rules name, counted one by one over the last five and ten minutes |
| `ErrorRings.VerdictMeans` | vmkdrivers/src_92/drivers/ata/libata-eh.c:1523-1670 | The sums of the category counters are the numbers of errors of each kind, told by their masks: ATA bus errors, else timeouts and HSM violations of I/O commands, else I/O commands rejected for no known reason; dubious while no newer or equally new transfer was verified |
| `ErrorRings.KindIsCategory` | vmkdrivers/src_92/drivers/ata/libata-eh.c:1523-1549 | The category of an error is that of its kind |
| `ErrorRings.SinceMeans` | vmkdrivers/src_92/drivers/ata/libata-eh.c:1630-1658 | What happened from then on is what is at most so many minutes old |
| `ErrorRings.ErrorRing.RecentVerdict` | vmkdrivers/src_92/drivers/ata/libata-eh.c:1636-1654 | Its half over five minutes |
| `ErrorRings.ErrorRing.LongVerdict` | vmkdrivers/src_92/drivers/ata/libata-eh.c:1656-1669 | Its half over ten minutes |
| `ErrorRings.PioVerdict` | vmkdrivers/src_92/drivers/ata/libata-eh.c:1629-1670 | A verdict that falls back to PIO also turns NCQ off or slows down |
| `ErrorRings.PioNeverAlone` | vmkdrivers/src_92/drivers/ata/libata-eh.c:1650-1669 | The errors that call for PIO within five minutes also call for NCQ_OFF or SPEED_DOWN within ten, because the shorter scan is a prefix of the longer |
| `ErrorRings.SevenTimeoutsSuffice` | vmkdrivers/src_92/drivers/ata/libata-eh.c:1614-1654 | Seven recent timeouts trigger the PIO rule and six do not: the code's threshold is 6, not the 8 of its comment |
| `ErrorRings.ErrorRing.NoteError` | vmkdrivers/src_92/drivers/ata/libata-eh.c:1689-1704 | An error of none of the three kinds is not recorded; any other is, and the verdict is that over the new history |
| `ScsiErrors.EveryCommandDoneOnce` | vmkdrivers/src_92/drivers/ata/libata-eh.c:421-547 | Conservation: after sorting and finishing, every command of `eh_cmd_q` is on `eh_done_q` exactly once, none is left, and every active command had failed, so the non-empty-queue warning cannot fire |
| `ScsiErrors.EhPort.ScsiError` | vmkdrivers/src_92/drivers/ata/libata-eh.c:392-547 | All commands are done once and none stays active or failed, whatever the handler finds; one to five rounds are made, each repeated only because an exception was pending |
| `ScsiErrors.EhPort.SortTimeouts` | vmkdrivers/src_92/drivers/ata/libata-eh.c:421-463 | Commands without a queued command are finished with used-up retries, in order; every other one that had not failed has timed out; the port is frozen exactly when one did |
| `ScsiErrors.UsedUpMeans` | vmkdrivers/src_92/drivers/ata/libata-eh.c:445-449 | Exactly the commands so finished have their retries used up |
| `ScsiErrors.EhPort.SortList` | vmkdrivers/src_92/drivers/ata/libata-eh.c:423-450 | The sorting loop on the list it changes while walking it |
| `ScsiErrors.EhPort.SortOne` | vmkdrivers/src_92/drivers/ata/libata-eh.c:423-450 | One turn of it |
| `ScsiErrors.EhPort.FindTag` | vmkdrivers/src_92/drivers/ata/libata-eh.c:426-431 | The search finds a queued command exactly when one is active |
| `ScsiErrors.MidwayNext` | vmkdrivers/src_92/drivers/ata/libata-eh.c:423-450 | Removing the current entry of the list keeps the place of the walk |
| `ScsiErrors.EhPort.Finish` | vmkdrivers/src_92/drivers/ata/libata-eh.c:2836-2877 | The failed commands, in tag order, are moved to the done list, and retries are used up or given back by error mask |
| `ScsiErrors.RetriesMean` | vmkdrivers/src_92/drivers/ata/libata-eh.c:1010-1034 | Per failed command, for all of them together: retries are used up exactly for an invalid command, a command other than I/O that failed with a device error only, or no error but valid sense; one is given back if there is neither error nor sense; the count stays otherwise, and no other command's changes |
| `ScsiErrors.EhPort.FinishTag` | vmkdrivers/src_92/drivers/ata/libata-eh.c:988-1034 | One of them: completed or retried, moved to the done list, inactive and not failed |
| `ScsiErrors.EhPort.FirstRound` | vmkdrivers/src_92/drivers/ata/libata-eh.c:421-518 | Sorting and one round of the handler finish every command |
| `ScsiErrors.EhPort.LaterRound` | vmkdrivers/src_92/drivers/ata/libata-eh.c:488-531 | Later rounds finish nothing twice |
| `EhActions.EhInfo.ClearAction` | vmkdrivers/src_92/drivers/ata/libata-eh.c:304-328 | Clearing an action for one device takes it from what is due to that device and leaves every other device's due actions, even link-wide ones, in place |
| `EhActions.AboutToDo` | vmkdrivers/src_92/drivers/ata/libata-eh.c:1082-1111 | The actions are no longer requested; a reset requested meanwhile is taken over into the running context, so none is lost |
| `EhActions.Done` | vmkdrivers/src_92/drivers/ata/libata-eh.c:1125-1137 | The actions are no longer due; a finished reset finishes both kinds |
| `EhActions.ClearsEveryReset` | vmkdrivers/src_92/drivers/ata/libata-eh.c:1082-1137 | Clearing the pending resets clears every reset |
| `EhResets.Link.Reset` | vmkdrivers/src_92/drivers/ata/libata-eh.c:2139-2359 | RESETTING and the hotplug flag are cleared on every exit; return code and classes are those of the chosen way through; with `classify`, 0 on a link that is not offline means that postreset is handed a known class for device 0; success leaves no reset requested; on a host link that may carry a multiplier and may be softreset, success after a reset hands on the classes a softreset reported |
| `EhResets.TryAllMeans` | vmkdrivers/src_92/drivers/ata/libata-eh.c:2245-2358 | At most as many tries as the table has deadlines (four), every try but the last having failed; success is a classification, or ATA assumed after the very last try; EAGAIN is never returned |
| `EhResets.TryAllExact` | vmkdrivers/src_92/drivers/ata/libata-eh.c:2245-2358 | The tries end with the first that goes well or returns ERESTART, or with the last, and what that one came to is the result; from the second on they are hardresets if there is one; EAGAIN counts as success, and no class in the very last try as an ATA device |
| `EhResets.FollowUpExact` | vmkdrivers/src_92/drivers/ata/libata-eh.c:2121-2137 | A softreset follows exactly a hardreset that returns EAGAIN, or succeeds on a host link that may carry a multiplier or without classifying any device when asked to, unless the link forbids it; without a softreset method that is EINVAL; the answer of the last reset counts |
| `EhResets.MultiplierSought` | vmkdrivers/src_92/drivers/ata/libata-eh.c:2121-2137 | Success on a host link that may carry a multiplier and may be softreset is the answer of a softreset in the last try |
| `EhResets.ClassesExact` | vmkdrivers/src_92/drivers/ata/libata-eh.c:2090-2119 | A failed reset leaves the classes as reported; after success unclassified devices are absent exactly if one was classified |
| `EhResets.SuccessClassifies` | vmkdrivers/src_92/drivers/ata/libata-eh.c:2285-2326 | Whatever way a reset succeeds, device 0 of a link that is not offline is classified if asked for |
| `EhResets.HardWhenAsked` | vmkdrivers/src_92/drivers/ata/libata-eh.c:2194-2243 | Without prereset, a hardreset is used exactly when there is one and there is no softreset, softreset is excluded, the speed must change, or a hardreset was asked for |
| `EhResets.PreresetDecides` | vmkdrivers/src_92/drivers/ata/libata-eh.c:2206-2243 | With prereset: an absent port and no reset asked for are successes without reset, another error ends the matter, and otherwise the reset asked for is used, or the other if it does not exist |
| `EhResets.OverrideMeans` | vmkdrivers/src_92/drivers/ata/libata-eh.c:2297-2315 | Which devices become ATA devices or unsupported management devices, and that those on an offline link keep their class |
| `EhResets.Link.Tries` | vmkdrivers/src_92/drivers/ata/libata-eh.c:2245-2358 | The retry loop with its deadline index is the recursive description of it |
| `EhResets.Link.OneTry` | vmkdrivers/src_92/drivers/ata/libata-eh.c:2245-2283 | One try, with the follow-up softreset exactly when it is needed, or EINVAL when there is none |
| `EhResets.Link.ChooseReset` | vmkdrivers/src_92/drivers/ata/libata-eh.c:2194-2243 | Which reset is started with, or how prereset decided the matter; "no reset" leaves all devices absent |
| `EhResets.Link.DoReset` | vmkdrivers/src_92/drivers/ata/libata-eh.c:2090-2119 | After success unknown classes are absent ones exactly if some device is classified |
| `EhResets.Settled` | vmkdrivers/src_92/drivers/ata/libata-eh.c:2103-2116 | Unknown becomes absent exactly if some device is classified |
| `EhResets.Link.Finish` | vmkdrivers/src_92/drivers/ata/libata-eh.c:2297-2326 | Class overrides for the devices of a link that is not offline, then postreset, then revalidation requested and no reset |
| `EhRecovers.Recovery.Recover` | vmkdrivers/src_92/drivers/ata/libata-eh.c:2658-2824 | It ends for every pattern of failures, after at most 1 + 7 passes per device; every enabled device keeps a try and tries never go negative; a multiplier that turns up has used up a chance of the device, one that answers to begin with is attached, and a device at rest stays so; no detach is left to be done; "recovered" means a last pass in which every device due for revalidation was online and answered, every new one was identified and configured, and every enabled one has a mode that could be set; a frozen fan-out link comes with the error of one of its devices |
| `EhRecovers.FailureCosts` | vmkdrivers/src_92/drivers/ata/libata-eh.c:2589-2634 | Every failure lowers tries plus 4 for a device not yet probed, even when a probe hands out new tries, and leaves an enabled device at least one try; no device at rest fails |
| `EhRecovers.FailureExact` | vmkdrivers/src_92/drivers/ata/libata-eh.c:2589-2634 | A device is disabled exactly at its last try if it was enabled; it then comes back with full tries exactly if a probe, asked for before or by ENODEV, is due; otherwise ENODEV and EINVAL leave one try at most |
| `EhRecovers.Recovery.Pass` | vmkdrivers/src_92/drivers/ata/libata-eh.c:2705-2816 | A pass goes link by link up to the first that fails and freezes the port, touching no further device; every other link either answered in full or has a device to blame; a pass that must be repeated has lowered the rank, one without a failure has seen to every device, and each exit says why |
| `EhRecovers.Recovery.Passes` | vmkdrivers/src_92/drivers/ata/libata-eh.c:2705-2824 | The retry loop makes at most one pass more than the devices have rank, and says what its last pass did |
| `EhRecovers.Recovery.NextPass` | vmkdrivers/src_92/drivers/ata/libata-eh.c:2705-2816 | One pass: to be repeated only if it lowered the rank, and otherwise with the reason it ended |
| `EhRecovers.Recovery.PassLink` | vmkdrivers/src_92/drivers/ata/libata-eh.c:2760-2803 | One link of a pass: its failure is counted and has cost rank, its success extends what the pass has seen to |
| `EhRecovers.LinkKeeps` | vmkdrivers/src_92/drivers/ata/libata-eh.c:2760-2803 | A link that fails lowers the rank, one that does not leaves it |
| `EhRecovers.PmpAttaches` | vmkdrivers/src_92/drivers/ata/libata-eh.c:2760-2772 | A host device of unknown class that answers as a multiplier is attached, and nothing fails |
| `EhRecovers.CleanNext` | vmkdrivers/src_92/drivers/ata/libata-eh.c:2760-2788 | A link recovered without a failure extends a pass without failures |
| `EhRecovers.CleanExact` | vmkdrivers/src_92/drivers/ata/libata-eh.c:2377-2465 | A pass is without a failure if and only if every device answered well, said by the answers: online and revalidated; found enabled, identified and configured, its class Pmp if found as one and Atapi or Ata as identified; or nobody there |
| `EhRecovers.VisitExact` | vmkdrivers/src_92/drivers/ata/libata-eh.c:2377-2433 | A visit reports an error only for a reason, and attaches exactly what is found enabled and identified |
| `EhRecovers.LinkExact` | vmkdrivers/src_92/drivers/ata/libata-eh.c:2760-2793 | A link touches no other link's devices; it fails with an error one of its answers gives for the failing device, and otherwise every device of it answered well |
| `EhRecovers.Recovery.NextLink` | vmkdrivers/src_92/drivers/ata/libata-eh.c:2760-2803 | One link of the loop: on to the next, or stop at a multiplier or a frozen port |
| `EhRecovers.Recovery.RecoverLink` | vmkdrivers/src_92/drivers/ata/libata-eh.c:2760-2793 | Attach, set modes, and charge the failing device |
| `EhRecovers.Recovery.RevalidateAndAttach` | vmkdrivers/src_92/drivers/ata/libata-eh.c:2361-2471 | Devices are visited downwards and new ones configured upwards, up to the first error, which is reported with its device |
| `EhRecovers.Recovery.VisitAll` | vmkdrivers/src_92/drivers/ata/libata-eh.c:2377-2433 | The backward loop: every device visited, or those above the first failing one |
| `EhRecovers.Recovery.VisitOne` | vmkdrivers/src_92/drivers/ata/libata-eh.c:2377-2433 | Revalidated, attached or left alone; an empty slot is no error and a failed one stays unknown |
| `EhRecovers.AttachKeeps` | vmkdrivers/src_92/drivers/ata/libata-eh.c:2361-2471 | Attaching changes no tries, and a device that fails has one left |
| `EhRecovers.Recovery.SetMode` | vmkdrivers/src_92/drivers/ata/libata-core.c:3439-3520 | The first enabled device without a PIO mode, with EINVAL, or else the first whose transfer mode cannot be set, with its error |
| `EhRecovers.Recovery.HandleDevFail` | vmkdrivers/src_92/drivers/ata/libata-eh.c:2589-2634 | The device after its failure, and whether it was disabled |
| `EhRecovers.Recovery.Prepare` | vmkdrivers/src_92/drivers/ata/libata-eh.c:2677-2703 | Fresh tries, requested detaches, and one probe of a disabled device per session |
| `EhRecovers.PreparedMeans` | vmkdrivers/src_92/drivers/ata/libata-eh.c:2689-2702 | Tries, class and probe of a device at the start, read off the device before |
| `EhRecovers.Recovery.ResetLinks` | vmkdrivers/src_92/drivers/ata/libata-eh.c:2732-2757 | The first link whose reset fails, if any |
| `PmpRecovers.PmpPort.Recover` | vmkdrivers/src_92/drivers/ata/libata-pmp.c:1014-1161 | The retry loop ends whatever the hardware answers and whatever the uninitialised array of link tries held.  Within 1 + (2b + 2) * 51 passes, b being how often the host device may still be attached, unless a multiplier is to be detached, its device probed, and one with more links attached in its place; then within that plus the sum of what the array held, and at least as many as it held for the first of these links if its PHY goes on changing.  Success with a multiplier attached means a last pass in which it and each of its links were recovered (unless that pass detached another), the registers were dealt with, and every link whose PHY changed again was given up; an error leaves no multiplier attached unless unloading |
| `PmpRecovers.OverrunPossible` | vmkdrivers/src_92/drivers/ata/libata-pmp.c:1020-1051 | The condition is exact, and known before the call: answers that make a link's unwritten tries count exist exactly when a multiplier is attached and to be detached, its device is to be probed again, and a multiplier can have more links |
| `PmpRecovers.Overrun` | vmkdrivers/src_92/drivers/ata/libata-pmp.c:1020-1051 | And then there are answers and a stack for which the loop makes as many passes as any 32-bit number says |
| `PmpRecovers.PmpPort.StartFresh` | vmkdrivers/src_92/drivers/ata/libata-pmp.c:1020-1032 | Only the links present get fresh tries; the other entries are what the stack held |
| `PmpRecovers.PmpPort.Pass` | vmkdrivers/src_92/drivers/ata/libata-pmp.c:1034-1153 | Every repetition lowers a weight in which one chance to get a multiplier outweighs all tries of the multiplier and its links, though tries are refilled and one path uses none up; the last pass ends as described for the whole; in a pass where only PHYs change exactly their links lose a try, in a multiplier newly attached as well |
| `PmpRecovers.WeightDrops` | vmkdrivers/src_92/drivers/ata/libata-pmp.c:1034-1153 | A chance used up outweighs any refill of tries, whatever they were before |
| `PmpRecovers.PmpPort.PassAttached` | vmkdrivers/src_92/drivers/ata/libata-pmp.c:1055-1161 | With a multiplier attached: return code, whether to repeat and the tries left, as a function of the answers |
| `PmpRecovers.PmpPort.RecoverAttached` | vmkdrivers/src_92/drivers/ata/libata-pmp.c:1055-1134 | The multiplier, the disabled links and the fan-out links, in this order, and which of them decides |
| `PmpRecovers.PmpPort.RecoverFanOut` | vmkdrivers/src_92/drivers/ata/libata-pmp.c:1066-1134 | Repeat, fail or finish, from the recovery of the links, the notification and error registers and the links whose PHY changed, and which links lose a try; a host device not to be probed brings no multiplier, one that answers as a multiplier does |
| `PmpRecovers.PmpPort.RecoverLinks` | vmkdrivers/src_92/drivers/ata/libata-pmp.c:1066-1070 | The links of the multiplier go through `ata_eh_recover`: it fails for the link whose reset failed or which is frozen, and success means a last pass that saw to every link's device, or unloading |
| `PmpRecovers.RecoverFan` | vmkdrivers/src_92/drivers/ata/libata-pmp.c:1066-1070 | That recovery, one device per link, by the retry machine of `EhRecovers` |
| `PmpRecovers.PmpPort.Check` | vmkdrivers/src_92/drivers/ata/libata-pmp.c:1072-1127 | The notification and error registers decide whether to fail, repeat or finish |
| `PmpRecovers.PmpPort.Passes` | vmkdrivers/src_92/drivers/ata/libata-pmp.c:1034-1161 | The retry loop makes at most as many passes as its weight, which leaves out tries that are never read, and says what its last pass did; in the failing case it makes at least as many as the unwritten entry says |
| `PmpRecovers.PmpPort.RecheckLinks` | vmkdrivers/src_92/drivers/ata/libata-pmp.c:1093-1125 | Each changed link loses a try; one with more than one left is probed and recovery repeats, exactly if there is one; the others are disabled with their device; no other link or device changes |
| `PmpRecovers.PmpPort.RecheckOne` | vmkdrivers/src_92/drivers/ata/libata-pmp.c:1094-1117 | One link of it |
| `PmpRecovers.ChangeMeans` | vmkdrivers/src_92/drivers/ata/libata-pmp.c:1103-1117 | A changed link that may be tried again gets a disabled device back at the next recovery, unless it was probed already; any other loses its device |
| `PmpRecovers.PmpPort.HandleLinkFail` | vmkdrivers/src_92/drivers/ata/libata-pmp.c:966-989 | A link with more than one try left loses one and is tried again; otherwise it is disabled with its device |
| `PmpRecovers.PmpPort.PmpFailed` | vmkdrivers/src_92/drivers/ata/libata-pmp.c:1136-1160 | Stop when unloading, repeat when the multiplier is gone, else use up one of its tries and drop it with the last |
| `PmpRecovers.PmpPort.RecoverPmp` | vmkdrivers/src_92/drivers/ata/libata-pmp.c:826-926 | The tries at the multiplier, and whether it is kept, disabled or detached for a probe; a reset of it asks for a probe of every fan-out device; a requested detach counts as success; if it is never missing and always reset it is kept exactly if one of five tries succeeds |
| `PmpRecovers.PmpPort.TryPmpAgain` | vmkdrivers/src_92/drivers/ata/libata-pmp.c:842-914 | The tries, in place: return code, whether the multiplier was missing, and the probes asked for |
| `PmpRecovers.TryPmpMeans` | vmkdrivers/src_92/drivers/ata/libata-pmp.c:844-909 | At most five tries, all but the last in vain, at most two more after the multiplier was found missing, and none after a failed reset, the first try being without one unless asked for |
| `PmpRecovers.TryPmpExact` | vmkdrivers/src_92/drivers/ata/libata-pmp.c:844-909 | And not fewer: a failure ends at a reset that fails while tries are left, after all tries, or two after the first that found the multiplier missing, with the error of that attempt and no success before it |
| `PmpRecovers.KeptIfAnyTry` | vmkdrivers/src_92/drivers/ata/libata-pmp.c:844-909 | If no try finds the multiplier missing or fails to reset it, it is kept exactly if one of them succeeds |
| `PmpRecovers.PmpPort.BringOnline` | vmkdrivers/src_92/drivers/ata/libata-pmp.c:1036-1053 | Without a multiplier a pass goes on only if one comes online, which refills the tries of its links, whatever they held, and uses up a chance |
| `PmpRecovers.PmpPort.FillTries` | vmkdrivers/src_92/drivers/ata/libata-pmp.c:1030-1051 | Every link of the port has full tries, no other is touched |
| `LinkArbitration.SwitchExcludes` | vmkdrivers/src_92/drivers/ata/libata-pmp.c:100-115 | Command switching, in every run: commands are active on at most one link, and whenever one in flight has reached the driver it is the link AHCI remembers in `active_link` |
| `LinkArbitration.ForgottenLink` | vmkdrivers/src_92/drivers/ata/libata-core.c:6207-6239 | A command that fails between libata and the driver can be in flight on another link than the one remembered: a concrete run |
| `LinkArbitration.SwitchMeans` | vmkdrivers/src_92/drivers/ata/libata-pmp.c:100-115 | A command is admitted exactly when no other link is recorded, nothing is in flight elsewhere, and it mixes with nothing on its link; only its own link is ever recorded, and only if commands of another are in its way; it is put off for its link exactly if only mixing stands in its way |
| `LinkArbitration.Sil24Means` | vmkdrivers/src_9/drivers/ata/sata_sil24.c:831-874 | A command is admitted exactly when nothing is in flight, if it is exclusive or its own link is recorded; when it mixes with nothing on its link, if neither; and never if another link is recorded; only exclusive commands record a link, their own; it is put off for its link exactly if only mixing stands in its way, and carries the flag exactly if it is exclusive or a link was recorded |
| `LinkArbitration.StdDeferMeans` | vmkdrivers/src_92/drivers/ata/libata-core.c:4996-5010 | A command is admitted exactly when it mixes with nothing on its link: NCQ commands go with NCQ commands only, others alone |
| `LinkArbitration.NoOvertaking` | vmkdrivers/src_92/drivers/ata/libata-pmp.c:100-115 | Under either rule, from any state: once a link is recorded in `excl_link`, idle or busy with commands that do not carry the flag, nothing is admitted until a command of that link is |
| `LinkArbitration.RefusalRecords` | vmkdrivers/src_92/drivers/ata/libata-pmp.c:105-114 | Under either rule, a command refused for the port while no link is recorded records its own link, and nothing in flight there carries the flag; under command switching the link is idle |
| `LinkArbitration.RefusedIsNext` | vmkdrivers/src_92/drivers/ata/libata-pmp.c:100-115 | In every run, under either rule, even one in which multipliers come and go, a command so refused is not overtaken: until one of its link is admitted, or error handling, nothing is |
| `LinkArbitration.ExclusionEnds` | vmkdrivers/src_92/drivers/ata/libata-core.c:5987-5990 | In every run, under either rule: with nothing in flight and a link recorded, a command of that link is admitted, and when it completes no link is recorded and a command of any link is admitted |
| `LinkArbitration.ExclusiveReleases` | vmkdrivers/src_9/drivers/ata/sata_sil24.c:831-874 | In every run the completion of an ATAPI or RESULT_TF command under sil24 leaves nothing recorded and nothing in flight |
| `LinkArbitration.SwitchReleases` | vmkdrivers/src_92/drivers/ata/libata-core.c:5987-5990 | In every run under command switching a completion ends the exclusion exactly if it is of the recorded link |
| `LinkArbitration.Sil24Excludes` | vmkdrivers/src_9/drivers/ata/sata_sil24.c:831-874 | In every run an ATAPI or RESULT_TF command in flight is the only command on the port |
| `LinkArbitration.Sil24AdmitsAlone` | vmkdrivers/src_9/drivers/ata/sata_sil24.c:831-874 | Such a command is admitted only when no link is active |
| `LinkArbitration.StepKeeps` | vmkdrivers/src_92/drivers/ata/libata-core.c:5966-6005 | Every step under either rule keeps: the link fields list exactly the commands in flight, NCQ and other commands do not mix on a link, `nr_active_links` counts the busy links, and the exclusion of the rule; error handling may change the links |
| `LinkArbitration.IssueConsistent` | vmkdrivers/src_92/drivers/ata/libata-core.c:6177-6205 | Issuing keeps that bookkeeping and makes exactly the command's link busy |
| `LinkArbitration.FinishConsistent` | vmkdrivers/src_92/drivers/ata/libata-core.c:5966-6005 | Completing keeps it and makes no link busy |
| `LinkArbitration.RegisterChoice` | vmkdrivers/src_9/drivers/ata/ahci.c:2034-2038 | Once a command in flight has reached the driver, `active_link` has SActive bits exactly when NCQ commands are in flight, and then all are NCQ |
| `LinkArbitration.HostLinkAlone` | vmkdrivers/src_9/drivers/ata/ahci.c:1784-1793 | With the host link alone command switching decides as ata_std_qc_defer |
| `LinkArbitration.AtaPort.AhciPmpQcDefer` | vmkdrivers/src_9/drivers/ata/ahci.c:1784-1793 | Whatever the number of links it decides as command switching, and records the same link |
| `LinkArbitration.AtaPort.SataPmpQcDeferCmdSwitch` | vmkdrivers/src_92/drivers/ata/libata-pmp.c:100-115 | Go means that everything in flight is on the command's link and mixes with it; no link but its own is recorded |
| `LinkArbitration.AtaPort.Sil24QcDefer` | vmkdrivers/src_9/drivers/ata/sata_sil24.c:831-874 | Go means that the command mixes with nothing on its link, and is alone if it is exclusive or a link was recorded; only an exclusive command records its link |
| `LinkArbitration.AtaPort.AtaStdQcDefer` | vmkdrivers/src_92/drivers/ata/libata-core.c:4996-5010 | Go exactly when the command mixes with nothing on its link |
| `LinkArbitration.AtaPort.QcIssue` | vmkdrivers/src_92/drivers/ata/libata-core.c:6177-6239 | Issuing an admitted command keeps the link fields in step with the commands in flight and makes its link, and no other, busy |
| `LinkArbitration.AtaPort.QcComplete` | vmkdrivers/src_92/drivers/ata/libata-core.c:5966-6000 | Completing one keeps them in step and makes no link busy; the exclusion ends exactly if the command carries the flag and its link is recorded |
| `LinkArbitration.AtaPort.ErrorLink` | vmkdrivers/src_9/drivers/ata/ahci.c:1881-1886 | The first active link is the one all commands in flight are on, and `active_link` once one has reached the driver; with nothing in flight it is the host link |
| `LinkArbitration.AtaPort.ReadsSActive` | vmkdrivers/src_9/drivers/ata/ahci.c:2034-2038 | SActive is read exactly when NCQ commands are in flight on `active_link`; once a command has reached the driver, exactly when any are, and then all are |
| `PrdTables.ExactlyFaithful` | vmkdrivers/src_9/drivers/ata/sata_nv.c:2066-2100 | The table names exactly the bytes of the scatter list, in order (count 0 meaning 64K, addresses not reduced), if and only if every segment with bytes ends within 4 GB and has an offset within 64K plus length below 2^32 |
| `PrdTables.FailingExamples` | vmkdrivers/src_9/drivers/ata/sata_nv.c:2081-2095 | Failing inputs: four bytes above 4 GB, two bytes across it, and a segment of 2^32 - 1 bytes whose sum wraps |
| `PrdTables.SmallSegments` | vmkdrivers/src_9/drivers/ata/sata_nv.c:2081-2095 | Of segments of at most 64K only the address can fail: the condition is that each with bytes ends within 4 GB |
| `PrdTables.SplitCounts` | vmkdrivers/src_9/drivers/ata/sata_nv.c:2084-2096 | Without wrap the entries of a segment name as many bytes as it has, all below 4 GB: what the truncated address loses is the place, not the number |
| `PrdTables.WrapLosesBytes` | vmkdrivers/src_9/drivers/ata/sata_nv.c:2083-2090 | Each segment of the failing family becomes an entry that names too few bytes |
| `PrdTables.TableSound` | vmkdrivers/src_9/drivers/ata/sata_nv.c:2066-2100 | No entry is empty or crosses 64K, and end-of-table is set on the last entry only |
| `PrdTables.TableFits` | vmkdrivers/src_9/drivers/ata/sata_promise.c:54-54 | At most two entries per segment of at most 64K: at most 256 for 128 segments, and at most 255 for the Promise table of 127 segments with the workaround |
| `PrdTables.NonEmpty` | vmkdrivers/src_9/drivers/ata/sata_nv.c:2066-2100 | There is a last entry exactly when the list has a byte |
| `PrdTables.NvSwncqFillSg` | vmkdrivers/src_9/drivers/ata/sata_nv.c:2066-2100 | The loops write exactly that table into the tag's part of the port's tables, and nothing else |
| `PrdTables.FillEntries` | vmkdrivers/src_9/drivers/ata/sata_nv.c:2077-2097 | The nested loops the two drivers share |
| `PrdTables.FillSegment` | vmkdrivers/src_9/drivers/ata/sata_nv.c:2084-2096 | Their inner loop, one segment |
| `PrdTables.SplitFaithful` | vmkdrivers/src_9/drivers/ata/sata_nv.c:2084-2096 | The entries of a segment that ends within 4 GB name its bytes in order |
| `PrdTables.PdcFaithful` | vmkdrivers/src_9/drivers/ata/sata_promise.c:534-594 | The Promise table, workaround included, names exactly the bytes of the scatter list, in order, if and only if the same condition holds |
| `PrdTables.PdcSound` | vmkdrivers/src_9/drivers/ata/sata_promise.c:534-594 | It too has no empty entry, no crossing of 64K, and one end-of-table |
| `PrdTables.CutLastKeeps` | vmkdrivers/src_9/drivers/ata/sata_promise.c:573-591 | The workaround keeps bytes and 64K safety and leaves an encoded last count of at most 164 |
| `PrdTables.CutLastExact` | vmkdrivers/src_9/drivers/ata/sata_promise.c:573-591 | It touches only a last entry of more than 164 encoded bytes, and moves exactly 164 of them to a new one |
| `PrdTables.WorkaroundExact` | vmkdrivers/src_9/drivers/ata/sata_promise.c:573-591 | The last entry is at most 164 bytes long, as the workaround wants, if and only if the last segment with bytes does not end in a whole aligned 64K |
| `PrdTables.WholeBlockEscapes` | vmkdrivers/src_9/drivers/ata/sata_promise.c:573-591 | It is not for a single segment of 64K at address 0 |
| `PrdTables.CutLastInPlace` | vmkdrivers/src_9/drivers/ata/sata_promise.c:573-591 | The last entry is patched and the new one added in place |
| `PrdTables.PdcFillSg` | vmkdrivers/src_9/drivers/ata/sata_promise.c:534-594 | The driver's loops and patch write exactly that table, and nothing behind it |
| `AdmaChains.ChainFaithful` | vmkdrivers/src_9/drivers/ata/sata_nv.c:1392-1429 | The engine, following CONT, END and `next_aprd`, visits exactly the scatter list in order and in the right direction, and stops, for every length from 1 to 61 |
| `AdmaChains.AdmaPort.FillSg` | vmkdrivers/src_9/drivers/ata/sata_nv.c:1411-1429 | The tag's descriptors and pointer are those of the list; no other tag's are touched |
| `AdmaChains.OthersKept` | vmkdrivers/src_9/drivers/ata/sata_nv.c:1419-1428 | Filling one tag's external table leaves the chain of every other tag as it was |
| `AdmaChains.TablesDisjoint` | vmkdrivers/src_9/drivers/ata/sata_nv.c:96-104 | The external tables of different tags are disjoint, clear of the command blocks, and inside the allocated block |
| `AdmaChains.AdmaPort.constructor` | vmkdrivers/src_9/drivers/ata/sata_nv.c:1231-1255 | The external tables lie behind the 32 command blocks |
| `Taskfiles.AdmaFaithful` | vmkdrivers/src_9/drivers/ata/sata_nv.c:856-886 | Replaying the ADMA words leaves the register file the taskfile means, current and previous bytes, for every combination of flags |
| `Taskfiles.NvAdmaTfToCpb` | vmkdrivers/src_9/drivers/ata/sata_nv.c:856-886 | Exactly 12 words are written: the taskfile's, then ignored ones |
| `Taskfiles.TaskfilePort.AtaTfLoadExec` | vmkdrivers/src_92/drivers/ata/libata-sff.c:87-153 | The reference: the register writes leave current bytes, previous bytes, device, command and control register as the taskfile means, and the cached control value right |
| `Taskfiles.TaskfilePort.WriteCtl` | vmkdrivers/src_92/drivers/ata/libata-sff.c:92-97 | The control register is the taskfile's, written only on change and if there is one |
| `Taskfiles.TaskfilePort.K2TfLoadExec` | vmkdrivers/src_9/drivers/ata/sata_svw.c:147-177 | The 16-bit writes leave the same, except that a 28-bit taskfile clears the previous bytes |
| `Taskfiles.K2Exact` | vmkdrivers/src_9/drivers/ata/sata_svw.c:147-177 | So K2 agrees with the reference for every register file if and only if the taskfile is not a 28-bit address taskfile; current bytes, device and command agree always |
| `Taskfiles.K2Clears` | vmkdrivers/src_9/drivers/ata/sata_svw.c:147-177 | After a 28-bit address taskfile the previous byte of each of the five registers is 0 |
| `PromisePackets.PacketMeans` | vmkdrivers/src_9/drivers/ata/sata_promise.h:44-154 | Executing the packet leaves the taskfile's current and previous bytes, device and command, taken as an address taskfile on the device its header selects |
| `PromisePackets.PacketExact` | vmkdrivers/src_9/drivers/ata/sata_promise.h:44-154 | It agrees with the reference for every register file if and only if the taskfile writes both the address and the device registers |
| `PromisePackets.WordsMean` | vmkdrivers/src_9/drivers/ata/sata_promise.h:53-72 | The words before the register writes: READ set exactly for a DMA read, NODATA exactly without data, the scatter table address as four bytes the controller reads as that address, and no next packet |
| `PromisePackets.DevSelectMeans` | vmkdrivers/src_9/drivers/ata/sata_promise.h:74-81 | Device 0 or 1 is chosen by bit 4 of the device register |
| `PromisePackets.OneClearBsy` | vmkdrivers/src_9/drivers/ata/sata_promise.h:79-103 | Selecting the device, and no other control byte around it, carries the clear-BSY bit |
| `PromisePackets.PacketBuffer.QcPrep` | vmkdrivers/src_9/drivers/ata/sata_promise.c:596-618 | The buffer the driver fills executes as that, whatever it held before; its first words give READ exactly for a DMA read and decode to the scatter table address |
| `PromisePackets.PacketBuffer.PktHeader` | vmkdrivers/src_9/drivers/ata/sata_promise.h:44-88 | The header: direction, scatter table address and no next packet as little-endian words, then device select and control register |
| `PromisePackets.PacketBuffer.PrepLba28` | vmkdrivers/src_9/drivers/ata/sata_promise.h:105-126 | The 28-bit address part, appended through an advancing index |
| `PromisePackets.PacketBuffer.PrepLba48` | vmkdrivers/src_9/drivers/ata/sata_promise.h:128-154 | The 48-bit address part |
| `PromisePackets.PacketBuffer.PktFooter` | vmkdrivers/src_9/drivers/ata/sata_promise.h:90-103 | Device register if asked for, then the command with the end-of-packet mark |
| `Plls.PdcAdjustPll` | vmkdrivers/src_9/drivers/ata/pata_pdc2027x.c:598-660 | For every clock: it divides by zero exactly below 1 kHz, writes the register exactly from 5 MHz to 70 MHz, and never reaches the two later give-up branches; F fits seven bits, R is the one for the range of the ratio, and the output is as `Accuracy` says |
| `Plls.PickExact` | vmkdrivers/src_9/drivers/ata/pata_pdc2027x.c:619-642 | The R picked makes F fit, and is the largest of the four that does if and only if the ratio is not just above one of the three limits (8600 to 8666, 12900 to 12999, 16100 to 16249) |
| `Plls.Accuracy` | vmkdrivers/src_9/drivers/ata/pata_pdc2027x.c:601-645 | The output for the clock in whole kHz never exceeds the target and falls short by less than clock/(R+2) + clock/1000; the true output exceeds it by less than one part in the kHz value |
| `Plls.OvershootExample` | vmkdrivers/src_9/drivers/ata/pata_pdc2027x.c:601-645 | It can exceed it: 5000999 Hz programs more than 100 MHz |
| `Plls.RatioRange` | vmkdrivers/src_9/drivers/ata/pata_pdc2027x.c:604-642 | An accepted clock has a ratio from 1428 to 26666 |

## Left out

- SwncqPorts.Port.IssueAtacmd: does not model loading the taskfile registers and the DMA engine programming of `nv_swncq_dmafis`; the tag and what is sent are modelled.
- SwncqProofs.EveryReachableState: says nothing of a frozen port; error handling, which ends in `nv_swncq_pp_reinit`, starts a new run.
- SwncqPorts.Port.QcIssue: NCQ commands only; others go to `ata_qc_issue_prot` and never share the link with NCQ ones.  Commands fail only together with a freeze, so the lookup of a tag finds every command in flight.
- ErrorRings.ErrorRing.NoteError: does not model what `ata_eh_speed_down` does with a verdict.
- ScsiErrors.EhPort.ScsiError: covers hosts with the new error handler, and takes the handler's recovery itself as arbitrary changes to error masks and sense.
- EhResets.Link.Reset: does not model delays, transfer mode and link speed; postreset is an arbitrary function of the classes.
- EhRecovers.Recovery.Recover: whether a link is skipped or needs a reset, and whether a device is to be revalidated, are answers of the pass.
- EhRecovers.Recovery.SetMode: a host's private set_mode method, and setting the modes themselves; whether there is a mode, and whether it can be set, are answers.
- PmpRecovers.PmpPort.RecoverPmp: whether the multiplier is reset before the first try is an answer of the pass.
- PmpRecovers.PmpPort.RecoverLinks: a new multiplier starts with a device of unknown class per link; what an earlier one left behind is not kept.
- LinkArbitration.SwitchExcludes: error handling is one step that ends with no command in flight, on any number of links and with any link remembered, and FIS-based switching is off.
- Plls.PdcAdjustPll: does not model `pdc_read_counter` and the measurement of the clock.
- AdmaChains.AdmaPort.FillSg: little-endian layout inside a descriptor and the other command block fields.
- MMIO and PCI access, delays, message logging, IRQ registration, ID tables, quirks and cable detection: no logic of their own.
- Power management, ACPI hooks, internal commands, log page 10h and request sense.
- FIS-based switching and the VMware-only port reset of AHCI: they depend on hardware timing.
- `wfsctl`, the vmklinux and libata export shims, vmkplexer and module initialisation.
