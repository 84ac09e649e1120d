# Verification of sys-con

sys-con turns USB gamepads into virtual Nintendo Switch controllers. This project
models the parts of it that carry their own state and algorithms, and proves what
they promise for every input, every run and every interleaving:

| modules | what they model |
|---|---|
| `Lifo`, `SharedMemory`, `TouchMirror` | the 17-slot rings in shared memory: a writer whose single stores a game may watch, the controller object that numbers samples, and the touchscreen mirror that chases a foreign ring |
| `Gamepad`, `PadSystem`, `Hdl` | connecting, attaching and feeding virtual pads, with the eight-slot table all handlers share and with the debug-service back end whose devices the system may void |
| `Endpoint`, `Scheduler`, `WiiAdapter` | reading USB endpoints in turn, keeping the newest report, and splitting the GameCube adapter's packets |
| `Bits`, `SwitchPad`, `Axis`, `InputMap` | from report bytes to stick positions and buttons |
| `Ini`, `IniLines`, `IniReaders` | the INI parser on its line buffer, what the forms of a line mean to it, and the two line readers |
| `VidPid`, `Config`, `ConfigNames`, `ConfigFile`, `ConfigAppend`, `ConfigHandler` | loading a configuration in layers, the words and values of its lines, and the section that is appended for an unknown controller |
| `StickConfig` | from the lines of a file to the way a stick moves |
| `Sequences`, `Chars`, `CNumbers` | what several modules need of sequences, characters and C integers |

Code that works in place is a class or a method on an array here, and each such
method's contract ties the new state to a function of the old one. The lemmas are
about those functions: they are the specification, and the partners of the methods.
Concurrency is modelled by machines whose steps are single memory accesses, with
unbounded logs of everything ever published beside them.

`dafny verify dfyconfig.toml` checks the whole project.

## What the code does not promise

Where a property one would expect is false of the code, the model keeps the code as
it is and the project proves exactly when the property holds.

- The touchscreen poller remembers the tail of its own fake ring and compares it
  with the live tail (`SwitchMITMManager.cpp:383`, `397`). Each copy closes a lag by
  one slot, so a lag that is a multiple of 17 looks like none and the newest sample
  is never copied (`TouchMirror.Settles`, `TouchMirror.BurstIsSeenUnlessMultiple`,
  `TouchMirror.SeventeenAppendsAreMissed`). A lag of n below 17 is made up by n
  copies of the newest sample.
- On the shared-memory back end an attach that finds no free slot uses up the pending
  re-attach and the state update that follows has no pad to go to
  (`SwitchMITMHandler.cpp:58`, `65`). `PadSystem.FaultsExactlyWhenFull` and
  `PadSystem.ConnectingFitsExactly` say when; nine inputs are enough
  (`PadSystem.NinthFindsNoPad`).
- An endpoint may have more than one transfer out. `ReadAsync` forgets the transfer
  before it fetches the report (`SwitchUSBEndpoint.cpp:131-147`); if there is none, the
  next read posts a second one (`Endpoint.TwoTransfersOut`). From then on reports may
  carry another transfer's id. `Scheduler.OneTransferExactly` and
  `Endpoint.MismatchNeedsStray` say exactly when.
- The newest report is not delivered when a completion without data stands before it
  (`Endpoint.StaleReport`, with the exact condition in `Endpoint.LatestKeepsNewest`).
- A pin may be stored that is no pin: `atoi` is compared with the upper limit only
  (`config_handler.cpp:217-222`), and a number of 2^31 or more may come out negative
  (`Config.HugePinIsStored`, `Config.MisreadExactly`, `ConfigFile.LoadedPins`).
- Sampling numbers in a ring go back when a player's pad is attached anew
  (`SharedMemory.NextControllerStartsOver`).
- The fake touch ring keeps the count it was copied with, so a ring copied before it
  had filled up never shows more samples than it held then (`TouchMirror.FakeReader`).
- A stick does not reach its ends unless the factor is at least 100 percent
  (`Axis.EndsReachEnds`).
- `simulate_...` lines append. A load with a profile reads the controller's section
  twice, so its combos are entered twice, as far as there is room
  (`ConfigFile.LoadedCombos`). The override order holds for every other key.
- A value appended to the file comes back only if it has no blanks at its ends and no
  inline comment (`ConfigAppend.ReadBackExact`).
- A line of 1151 characters is one line for the file reader and two for the string
  reader, so line numbers behind it differ, though events do not
  (`IniReaders.ReadersAgree`, `IniReaders.LongLineShiftsError`).
- In a file with a line that does not fit the parser's buffer a section that is
  appended is never read, and every load appends it again
  (`ConfigAppend.LoadingAgainAppendsNothing`).
- The file reader drops a last line without a newline
  (`IniReaders.UnfinishedLineIsDropped`), while the string reader delivers it
  (`IniReaders.TailIsTheDifference`). When a section is appended that line becomes a
  line like the others, and an error in it makes the load fail
  (`ConfigAppend.AddedControllerIsFound`).
- A combo that names one button only never fires (`InputMap.HalfComboNeverFires`).

## Model

| member | source | states |
|---|---|---|
| Lifo.ReaderSeesNewest | source/ControllerSwitch/SwitchMITMManager.cpp:475-490 | A reader that looks between any two stores of the writer and walks back at most min(count, 16) entries from the tail sees exactly the newest published samples, newest first; with no slot being filled, all seventeen are exact |
| Lifo.FreshRingCountsPushes | source/ControllerSwitch/SwitchMITMManager.cpp:437-490 | A ring cleared by the initialisation counts exactly the samples published since, up to 17, at every store (the one whose count is still to be stored left out) |
| Lifo.SlotSurvives | source/ControllerSwitch/SwitchMITMManager.cpp:475-490 | A reader that loaded the tail and is overtaken by any number of stores finds the k-th newest sample intact if and only if k plus the appends begun since is at most 16, and the sampling number alone tells it which is the case |
| Lifo.GrowingOffers | source/ControllerSwitch/SwitchMITMManager.cpp:480-487 | Samples offered under growing sampling numbers keep the published numbers growing through every store, which is what lets a reader tell an overwritten slot |
| Lifo.PushAppends | source/ControllerSwitch/SwitchMITMManager.cpp:475-490 | A whole append takes a ring at rest to a ring at rest whose log has one more entry and whose count follows |
| SharedMemory.NpadState.Initialize | source/ControllerSwitch/SwitchMITMManager.cpp:424-458 | Clears the state in place: style set, and a ring of 17 zero slots with tail and count 0 |
| SharedMemory.NpadState.FillSlot | source/ControllerSwitch/SwitchMITMManager.cpp:480-485 | Performs the six field stores in the source's order; after each the memory is what the store machine says, whose sixth leaves the slot filled (`Write` says with what) |
| SharedMemory.NpadState.Append | source/ControllerSwitch/SwitchMITMManager.cpp:475-490 | The slot's six fields, then the tail, then the count: what the whole of the store machine's append makes of the state |
| SharedMemory.NpadState.Write | source/ControllerSwitch/SwitchMITMManager.cpp:470-490 | Initialises an untouched state first, then appends: the slot at the tail has the number, the buttons, each stick in its own field, attributes 3 and reserved 0, and the whole new value is the old one with that slot appended |
| SharedMemory.HidSharedMemoryController.WriteEntry | source/ControllerSwitch/SwitchMITMManager.cpp:468-491 | Writes one process's state under the current number and leaves every other process's memory unchanged |
| SharedMemory.HidSharedMemoryController.Update | source/ControllerSwitch/SwitchMITMManager.cpp:462-494 | Every process's state gets the sample once, in order, under consecutive numbers: the slot at its tail has the buttons, each stick in its own field, attributes 3 and reserved 0, and the counter moves on by the number of processes |
| SharedMemory.UpdateIsDo | source/ControllerSwitch/SwitchMITMManager.cpp:462-494 | The update method and the step of the life below compute the same states and the same counter |
| SharedMemory.HidSharedMemoryManager.Add | source/ControllerSwitch/SwitchMITMManager.cpp:219-244 | An entry whose creation failed is not listed and its status is returned; any other is put behind those listed |
| SharedMemory.HidSharedMemoryManager.AttachController | source/ControllerSwitch/SwitchMITMManager.cpp:170-184 | Takes the first free slot for a new controller that has that slot's index and number 0; with no free slot returns none and changes nothing |
| SharedMemory.HidSharedMemoryManager.DetachController | source/ControllerSwitch/SwitchMITMManager.cpp:186-198 | Empties the first slot that holds the controller and no other; does nothing if there is none |
| SharedMemory.LifetimeNumbers | source/ControllerSwitch/SwitchMITMManager.cpp:466-491 | Over one controller object's life, with processes coming along between updates: numbers strictly increase in write order in each process, no number is used twice in any processes, and the counter is the total of its writes over all of them |
| SharedMemory.LifetimeReader | source/ControllerSwitch/SwitchMITMManager.cpp:466-491 | Between updates every process's ring shows that controller's own newest samples, newest first, and its count is what the memory held at the start plus them, up to 17; a memory that was untouched shows nothing else |
| SharedMemory.SamplesSayUpdates | source/ControllerSwitch/SwitchMITMManager.cpp:466-487 | Over one controller object's life the samples written to a process are, in order, one for each update since the process came along, with that update's buttons, its left and its right stick in their own fields, attributes 3 and reserved 0 |
| SharedMemory.NextControllerStartsOver | source/ControllerSwitch/SwitchMITMManager.cpp:410-414 | A player's next controller numbers from 0 again in states that are not cleared: behind those of the controller before, its numbers rise in a process if and only if one of the two wrote nothing there |
| SharedMemory.SecondUpdateIsNotNewer | source/ControllerSwitch/SwitchMITMManager.cpp:410-414 | The failing run: one update by each of two controllers of a player, and both samples are number 0 |
| TouchMirror.TouchEntry.constructor | source/ControllerSwitch/SwitchMITMManager.cpp:100-102 | The fake ring and the remembered tail start as the mirror made from the live ring, which is where the runs below begin |
| TouchMirror.TouchEntry.OnRunEntry | source/ControllerSwitch/SwitchMITMManager.cpp:376-397 | One pass for one entry does in place what the machine's pass does: skip unless the count is 16 and the tail differs from the remembered one, else copy the sample at the tail, advance and remember the fake tail |
| TouchMirror.RunKeepsChasing | source/ControllerSwitch/SwitchMITMManager.cpp:374-398 | For every interleaving of appends and poller accesses: the remembered tail is the fake tail, the mirror never makes more appends than the live ring, its j-th append is meant to be the j-th live one or a later one, what is copied never goes back in time, and the fake count never changes |
| TouchMirror.NothingBeforeSixteen | source/ControllerSwitch/SwitchMITMManager.cpp:377-379 | As long as the live count is below 16, whatever is published and polled meanwhile, the fake ring stays as it was and nothing is copied |
| TouchMirror.MirrorIsFaithful | source/ControllerSwitch/SwitchMITMManager.cpp:386-395 | If between loading the tail and copying the slot at most sixteen appends begin, every mirrored sample still in the fake ring is exactly the sample that was newest when its copy began |
| TouchMirror.FaithfulExactlyWhenCalm | source/ControllerSwitch/SwitchMITMManager.cpp:386-395 | Where samples can be told apart, the mirror is faithful at every point of a run if and only if at most sixteen appends begin between loading a tail and copying its slot, at each copy |
| TouchMirror.MadeIsFaithful | source/ControllerSwitch/SwitchMITMManager.cpp:100-102 | The mirror made from any usable live ring satisfies what runs keep: tails together, no lag, both rings showing their logs |
| TouchMirror.FakeReader | source/ControllerSwitch/SwitchMITMManager.cpp:374-398 | In every calm run from there a reader of the fake ring sees the mirrored samples, newest first, and behind them what the copy held; the count it goes by is for ever that of the ring copied, so it never sees more than that many |
| TouchMirror.CatchesUp | source/ControllerSwitch/SwitchMITMManager.cpp:374-398 | Once the live ring rests, the fake ring makes exactly (lag mod 17) more appends, one a pass, each of the newest sample, and then stops |
| TouchMirror.Settles | source/ControllerSwitch/SwitchMITMManager.cpp:374-398 | After that many passes the tails are equal; the append counts are equal if and only if the lag was below 17, and the newest sample has arrived if and only if the lag was no multiple of 17 or it was there already |
| TouchMirror.NoLagIsUpToDate | source/ControllerSwitch/SwitchMITMManager.cpp:374-398 | With equal append counts and at least one copy made, the newest mirrored sample is the newest live one |
| TouchMirror.BurstIsSeenUnlessMultiple | source/ControllerSwitch/SwitchMITMManager.cpp:382-397 | A mirror that had caught up picks up a burst of appends if and only if its length is no multiple of 17, however often it polls |
| TouchMirror.SeventeenAppendsAreMissed | source/ControllerSwitch/SwitchMITMManager.cpp:382-384 | The failing input: seventeen samples between two polls leave the fake ring unchanged for ever after, although the live one moved on by 17 |
| Gamepad.SwitchMITMHandler.DetachController | source/ControllerSwitch/SwitchMITMHandler.cpp:42-51 | Releases the input's slot in the shared table and forgets the pad; nothing happens if there is none |
| Gamepad.SwitchMITMHandler.AttachController | source/ControllerSwitch/SwitchMITMHandler.cpp:53-61 | Gives a detached input a new pad in the first free slot, with that slot's index; changes nothing if it is attached or no slot is free |
| Gamepad.SwitchMITMHandler.UpdateControllerState | source/ControllerSwitch/SwitchMITMHandler.cpp:63-66 | With a pad attached, the state is written to the pad's player in every process, under the pad's next numbers |
| Gamepad.SwitchMITMHandler.SettlePad | source/ControllerSwitch/SwitchVirtualGamepadHandler.cpp:119-208 | The attaching part of a call does to the table, the input's flags and its pad one step of the specification: the report is passed over if and only if it was not read or the input is not connected, and there is a pad to give it to if and only if the input ends up with one; other inputs are left alone |
| Gamepad.SwitchMITMHandler.UpdateInput | source/ControllerSwitch/SwitchVirtualGamepadHandler.cpp:119-212 | The whole call: unless the report is passed over or there is no pad, every process's ring of the pad's player gets a slot with the report's buttons and sticks, under the pad's next numbers, from 0 for a pad made in this call; otherwise no ring is written |
| Gamepad.SwitchMITMHandler.Exit | source/ControllerSwitch/SwitchVirtualGamepadHandler.cpp:31-48 | Leaving detaches every input the controller has and releases exactly their slots, in order |
| Gamepad.ReleasedExactly | source/ControllerSwitch/SwitchMITMManager.cpp:186-198 | Where no pad stands twice, releasing some pads empties exactly their slots and leaves every other slot as it is |
| PadSystem.AttachKeepsOwned | source/ControllerSwitch/SwitchMITMManager.cpp:170-184 | Attaching to the first free slot keeps occupied slots and attached inputs in bijection, each pad knowing its slot |
| PadSystem.DetachKeepsOwned | source/ControllerSwitch/SwitchMITMManager.cpp:186-198 | Detaching empties exactly the slot that carries the pad's index and keeps the bijection |
| PadSystem.UpdateKeepsGood | source/ControllerSwitch/SwitchVirtualGamepadHandler.cpp:119-212 | One report of any input of any handler keeps slot ownership and every handler's flags in tune with its pads |
| PadSystem.ExitKeepsGood | source/ControllerSwitch/SwitchVirtualGamepadHandler.cpp:44-45 | Each detach of a leaving handler, interleaved with anything else, keeps the same |
| PadSystem.FaultsExactlyWhenFull | source/ControllerSwitch/SwitchMITMHandler.cpp:53-66 | State is given to no pad if and only if a successful report comes from a detached input while no slot is free; when state is pushed, the input is attached |
| PadSystem.OutcomeExactly | source/ControllerSwitch/SwitchVirtualGamepadHandler.cpp:158-212 | A report is passed over if and only if it was not read or the input is not connected, and pushed if and only if it is a successful report and the input has a pad or a slot is free |
| PadSystem.FullMeansEightAttached | source/ControllerSwitch/SwitchMITMManager.cpp:170-198 | No slot is free if and only if eight inputs are attached |
| PadSystem.RunsAreSound | source/ControllerSwitch/SwitchVirtualGamepadHandler.cpp:119-212 | In every run of any handlers: slots and attached inputs are in bijection, two attached inputs have different player indices (so never write the same ring), a lost input has no pad, and a connected input without a pad has a re-attach pending |
| PadSystem.RunsEndOnlyWhenFull | source/ControllerSwitch/SwitchMITMHandler.cpp:53-66 | A run that ends for want of a pad does so on a successful report of a detached input while eight other inputs are attached |
| PadSystem.ConnectingFitsExactly | source/ControllerSwitch/SwitchMITMHandler.cpp:53-66 | From any state that keeps the above, inputs that connect one after the other all get a pad if and only if there are slots for all of them |
| PadSystem.NinthFindsNoPad | source/ControllerSwitch/SwitchMITMHandler.cpp:53-66 | The failing run: three adapters of four inputs register, and the ninth pad plugged in has nothing to take its state |
| Hdl.SwitchHDLHandler.DetachController | source/ControllerSwitch/SwitchHDLHandler.cpp:84-95 | The input has no device afterwards and the others keep theirs |
| Hdl.SwitchHDLHandler.AttachController | source/ControllerSwitch/SwitchHDLHandler.cpp:65-82 | A detached input takes whatever handle the system answers, none if it refuses; an attached one keeps its own |
| Hdl.SwitchHDLHandler.NoticeConnection | source/ControllerSwitch/SwitchVirtualGamepadHandler.cpp:139-156 | A connection gained asks for a re-attach, a connection lost detaches the input, and no other input changes |
| Hdl.SwitchHDLHandler.UpdateControllerState | source/ControllerSwitch/SwitchHDLHandler.cpp:98-128 | The report's buttons and sticks are kept; a failed state update of an attached input detaches it and is reported; otherwise nothing changes |
| Hdl.SwitchHDLHandler.UpdateInput | source/ControllerSwitch/SwitchVirtualGamepadHandler.cpp:119-212 | For any answers of the system: the input's handle is none after a lost connection or a failed state update, the one the system answered if an attach was attempted without one, and else what it was; the report is kept exactly if it is a successful one of a connected input; the other inputs do not change |
| Hdl.SwitchHDLHandler.Exit | source/ControllerSwitch/SwitchVirtualGamepadHandler.cpp:31-48 | Leaving detaches exactly the inputs the controller has |
| Hdl.ReattachIsPending | source/ControllerSwitch/SwitchVirtualGamepadHandler.cpp:144-208 | Over every run the re-attach flag is set if and only if the input was connected at some event and no attach was attempted since |
| Hdl.AttemptsExactly | source/ControllerSwitch/SwitchVirtualGamepadHandler.cpp:200-208 | An attach is attempted at an event if and only if it is a successful report of a connected input and a connection is still unanswered, or the pad is detached and L and R are held |
| Hdl.ForcedOffNeedsTrigger | source/ControllerSwitch/SwitchHDLHandler.cpp:108-124 | Between a detach forced by a failed state update and the next attach attempt there is a new connection or a successful report with L and R pressed |
| Hdl.AttemptsNeedOwnTriggers | source/ControllerSwitch/SwitchVirtualGamepadHandler.cpp:200-208 | Two attach attempts in a row have such a trigger between them, whatever comes of the first |
| Hdl.DisconnectedIsDetached | source/ControllerSwitch/SwitchVirtualGamepadHandler.cpp:139-156 | Over every run a disconnected input is detached, and right after a forced detach the input is connected, detached and has nothing pending |
| Hdl.ConnectedIsLast | source/ControllerSwitch/SwitchVirtualGamepadHandler.cpp:139-156 | Before an event an input counts as connected if and only if the last event said so |
| Hdl.AttachedExactly | source/ControllerSwitch/SwitchHDLHandler.cpp:65-128 | Over every run an input is attached if and only if at some event before, an attach was attempted that the system accepted together with the state update, and since then no event told of a lost connection and no successful report failed to be set |
| Endpoint.SwitchUSBEndpoint.PostBufferAsync | source/ControllerSwitch/SwitchUSBEndpoint.cpp:116-124 | Posts a transfer under a new id, which the stack then holds, if the stack accepts it; a refusal leaves nothing to wait for |
| Endpoint.SwitchUSBEndpoint.GetXferReport | source/ControllerSwitch/SwitchUSBEndpoint.cpp:134-140 | The stack gives the report of one of the transfers it holds and forgets that one, or gives none and keeps them all |
| Endpoint.SwitchUSBEndpoint.EndWait | source/ControllerSwitch/SwitchUSBEndpoint.cpp:131-163 | After an event the transfer waited for is forgotten before the report is fetched; only a fetched report that carries its id, has data and no error delivers, and a report of another transfer is refused |
| Endpoint.SwitchUSBEndpoint.ReadAsync | source/ControllerSwitch/SwitchUSBEndpoint.cpp:108-164 | For every answer of the stack: the endpoint's new state, the status, and on success the bytes in the buffer are those the specification of a read gives |
| Endpoint.ReadEndpointLatest | source/ControllerLib/Controllers/BaseController.cpp:135-166 | The read-then-drain loop ends, and leaves status, endpoint and buffer as the specification says: on success the buffer holds the last report drained |
| Endpoint.ReadTakesOldest | source/ControllerSwitch/SwitchUSBEndpoint.cpp:108-164 | A read takes the report of the first wait if that brings one for its own transfer, and no other report, delivers what it took, and times out only with a transfer posted |
| Endpoint.LatestTakes | source/ControllerLib/Controllers/BaseController.cpp:135-166 | A successful read takes a non-empty run of the queued reports in order and delivers the last; a failed one takes none; where no post is refused it takes exactly the good waits at the front |
| Endpoint.LatestKeepsNewest | source/ControllerLib/Controllers/BaseController.cpp:147-166 | Where no post is refused, a successful read takes all the reports that had completed, and delivers the newest of them, if and only if none of them stood behind a completion without a report |
| Endpoint.StaleReport | source/ControllerLib/Controllers/BaseController.cpp:154-158 | The failing input: behind a report and an empty completion a newer report stays queued, and the older one is delivered |
| Endpoint.TransfersAtWait | source/ControllerSwitch/SwitchUSBEndpoint.cpp:116-132 | At a wait the stack holds one transfer, and one more for every event so far that brought no report |
| Endpoint.TwoTransfersOut | source/ControllerSwitch/SwitchUSBEndpoint.cpp:116-147 | The failing input: an event without a report, and the next read has two transfers out |
| Endpoint.MismatchNeedsStray | source/ControllerSwitch/SwitchUSBEndpoint.cpp:142-146 | The report the stack gives can carry an id other than the one waited for if and only if it holds more than one transfer |
| Endpoint.StraysStay | source/ControllerSwitch/SwitchUSBEndpoint.cpp:142-146 | The report of a transfer given up is refused, gives up the one waited for, and so leaves as many |
| Scheduler.BaseController.ProbeAll | source/ControllerLib/Controllers/BaseController.cpp:184-196 | The fast pass probes from the cursor round, stops at the first endpoint with a report, and otherwise has read each once |
| Scheduler.BaseController.ReadNextBuffer | source/ControllerLib/Controllers/BaseController.cpp:168-214 | One call does in place what one step of the scheduler specification does: new cursor, endpoints, status, input index and report |
| Scheduler.SweepServesBy | source/ControllerLib/Controllers/BaseController.cpp:184-196 | A sweep serves somebody no farther from the cursor than the nearest ready endpoint |
| Scheduler.ReadyIsServedSoon | source/ControllerLib/Controllers/BaseController.cpp:184-213 | Whatever happens to the endpoints between calls, one that stays ready is served within one call more than its distance from the cursor, hence within as many calls as there are endpoints |
| Scheduler.ServedGoesLast | source/ControllerLib/Controllers/BaseController.cpp:190-213 | Whoever is served, by the sweep or by the read waited on, is the last one probed in the next call |
| Scheduler.IdleCallWaitsAtCursor | source/ControllerLib/Controllers/BaseController.cpp:198-213 | A call whose sweep serves nobody reads every endpoint once and the one at the cursor once more; that read's outcome is the call's, and the cursor moves on by one, round the end |
| Scheduler.EachIsWaitedOnOnce | source/ControllerLib/Controllers/BaseController.cpp:198-206 | Of as many such calls in a row as there are endpoints, whatever arrives in between, exactly one waits on each endpoint |
| Scheduler.SweepReadsEach | source/ControllerLib/Controllers/BaseController.cpp:184-196 | A sweep that serves nobody has read every endpoint exactly once |
| Scheduler.IdleSweepArms | source/ControllerLib/Controllers/BaseController.cpp:176-213 | After a sweep that found nothing, every endpoint that timed out is left with its transfer posted |
| Scheduler.NextTakes | source/ControllerLib/Controllers/BaseController.cpp:168-214 | A call takes reports of the served endpoint only, in order, and delivers the last of them; a call that serves nobody takes none |
| Scheduler.RunConserves | source/ControllerLib/Controllers/BaseController.cpp:168-214 | Over every run with any arrivals each endpoint's reports are those taken, in order, followed by those still queued; the stack holds a transfer given up for every event that brought no report, none is ever made up for, and there is none if and only if every event brought the report of the transfer posted last |
| Scheduler.OneTransferExactly | source/ControllerSwitch/SwitchUSBEndpoint.cpp:116-147 | Over every run of an endpoint that had given up none, a wait finds just one transfer out if and only if every event so far brought the report of the transfer posted last |
| WiiAdapter.WiiController.ReadNextBuffer | source/ControllerLib/Controllers/WiiController.cpp:48-71 | One call is one step of the splitter: its phase, the held packet, the status, and on success the nine bytes and the input they belong to |
| WiiAdapter.WiiController.ParseConnection | source/ControllerLib/Controllers/WiiController.cpp:73-84 | Sets the input's connection flag from the status byte and no other flag; a short report changes nothing and an unplugged input is nothing to do |
| WiiAdapter.PluggedIsMask | source/ControllerLib/Controllers/WiiController.cpp:81 | The bit test on the status byte is bit 4 or bit 5, for all 256 values |
| WiiAdapter.FreshPacket | source/ControllerLib/Controllers/WiiController.cpp:50-69 | When all four parts have gone, a packet passes if and only if the read succeeded with tag 0x21 and at least 37 bytes; a failed read tells its own status, a malformed packet is unexpected data, and the first part handed out is bytes 1 to 9 |
| WiiAdapter.PluggedByRange | source/ControllerLib/Controllers/WiiController.cpp:81 | A pad is plugged in if and only if the low six bits of its status byte are 16 or more |
| WiiAdapter.NothingIsLost | source/ControllerLib/Controllers/WiiController.cpp:48-71 | Over any run with failed and malformed reads the reports handed out concatenate to the payloads of the accepted packets, in order, up to what is still held |
| WiiAdapter.IndicesCycle | source/ControllerLib/Controllers/WiiController.cpp:67-68 | The k-th report handed out is for input (start + k) mod 4, whatever failed in between |
| WiiAdapter.FlagsFollowPacket | source/ControllerLib/Controllers/WiiController.cpp:64-84 | Four calls after an accepted packet the four connection flags are those of its four status bytes |
| SwitchPad.SwitchController.constructor | source/ControllerLib/Controllers/SwitchController.cpp:7-12 | All four calibrations start at 600 to 3400 |
| SwitchPad.SwitchController.ReadSample | source/ControllerLib/Controllers/SwitchController.cpp:84-87 | Reads the 12 bits of one stick axis out of the stick's three bytes in the report |
| SwitchPad.SwitchController.ParseData | source/ControllerLib/Controllers/SwitchController.cpp:53-114 | A short report is unexpected data, one with another id is nothing to do, and neither changes a calibration; any other widens each calibration by its own sample and yields the four axes normalised by the new ranges, y turned over |
| SwitchPad.CalibrationIsRange | source/ControllerLib/Controllers/SwitchController.cpp:89-96 | After any reports each calibration is exactly the range of the samples of accepted reports together with 600 and 3400 |
| SwitchPad.ReadingIsExact | source/ControllerLib/Controllers/SwitchController.cpp:103-106 | For every next accepted report 2000 lies strictly inside each range, so nothing is divided by zero; the clamp changes nothing, the axes lie in [-1, 1], and a new extreme is full deflection |
| SwitchPad.PackedSample | source/ControllerLib/Controllers/SwitchController.cpp:84-87 | Any two 12-bit values packed into a stick's three bytes are sampled exactly |
| SwitchPad.SampledBytes | source/ControllerLib/Controllers/SwitchController.cpp:84-87 | Which bytes of the report each of the four samples is made of, and how: bytes 6 to 8 are the left stick, 9 to 11 the right one |
| SwitchPad.LastReadingTurns | source/ControllerLib/Controllers/SwitchController.cpp:103-106 | For every next report x and z are the signed part of the way from 2000 to the end on the sample's side, and y and rz are its negative |
| Bits.OrSetsBit | source/ControllerLib/Controllers/BaseController.cpp:445-446 | The bitwise or of a number and a bit above all of its own is their sum |
| Bits.ReadBitsLE | source/ControllerLib/Controllers/BaseController.cpp:427-453 | The bit loop returns the buffer's little-endian number divided by 2^offset modulo 2^length, for lengths up to 31 within the buffer |
| Bits.FieldOfNumber | source/ControllerLib/Controllers/BaseController.cpp:427-453 | The bits of a stretch spell the buffer's number shifted right by the offset and cut to the length |
| Bits.FieldsConcatenate | source/ControllerLib/Controllers/BaseController.cpp:427-453 | Adjacent fields concatenate: low field plus 2^a times the high field is the joint field |
| Bits.PackedIsRead | source/ControllerLib/Controllers/SwitchController.cpp:84-87 | Two 12-bit values packed in three bytes are both read back |
| Axis.ClampIsIdle | source/ControllerLib/Controllers/BaseController.cpp:403-425 | Within the range the clamp changes nothing and the result lies in [-1, 1] |
| Axis.HalfIsTowardsZero | source/ControllerLib/Controllers/BaseController.cpp:398-401 | The centre of a range is half its sum without the odd one, so that -32768 to 32767 is centred on 0 |
| Axis.FractionOfSide | source/ControllerLib/Controllers/BaseController.cpp:406-417 | Before the clamp, a reading times the length of its side is its distance from the centre |
| Axis.DeadzoneIsLinear | source/ControllerLib/Controllers/BaseController.cpp:387-396 | Below the dead zone the value is 0, and beyond it the result times (100 - percent) is 100 times the value less percent, on either side |
| Axis.GainIsPercent | source/ControllerLib/Controllers/BaseController.cpp:332-334 | A factor of n scales by n hundredths, cut at the end that is passed |
| Axis.NormalizeMonotone | source/ControllerLib/Controllers/BaseController.cpp:398-425 | A larger reading never normalises to less, across both sides of the centre |
| Axis.NormalizeEnds | source/ControllerLib/Controllers/BaseController.cpp:398-425 | Readings at or beyond the two ends give exactly -1 and 1 |
| Axis.DeadzoneMonotone | source/ControllerLib/Controllers/BaseController.cpp:387-396 | Cutting out the dead zone keeps the order of values |
| Axis.DeadzoneEnds | source/ControllerLib/Controllers/BaseController.cpp:387-396 | Full deflection stays full deflection for every dead zone below 100 |
| Axis.ConvertIsScaling | source/ControllerSwitch/SwitchVirtualGamepadHandler.cpp:226-233 | The two conversions are scaling by 32767 truncated towards zero, with y turned over |
| Axis.TruncateIsTowardsZero | source/ControllerSwitch/SwitchVirtualGamepadHandler.cpp:231-232 | A conversion to integer is the nearest integer on the side of zero |
| Axis.StickFollowsReading | source/ControllerLib/Controllers/BaseController.cpp:387-425 | Normalise, cut, scale, cap and convert together never move the stick backwards in x, nor forwards in y, as the raw integer grows |
| Axis.EndsReachEnds | source/ControllerLib/Controllers/BaseController.cpp:387-425 | The ends of the reading reach the ends of the stick if and only if the factor is at least 100 percent |
| InputMap.CutDeadzones | source/ControllerLib/Controllers/BaseController.cpp:304-314 | Every axis but the unknown one is cut by its own dead zone in place, and the unknown one is zero |
| InputMap.SteerStick | source/ControllerLib/Controllers/BaseController.cpp:331-339 | One direction changes its own stick axis and no other, by its pins first and its scaled reading otherwise |
| InputMap.SteerSticks | source/ControllerLib/Controllers/BaseController.cpp:329-340 | The loop over the eight directions leaves the axes of the specification |
| InputMap.PressPinned | source/ControllerLib/Controllers/BaseController.cpp:362-363 | A button of the list is pressed if and only if one of its pins is; the others keep their state |
| InputMap.PressDriven | source/ControllerLib/Controllers/BaseController.cpp:365-369 | An axis bound to a button presses it when signed it is positive, and never releases it |
| InputMap.PressedExactly | source/ControllerLib/Controllers/BaseController.cpp:362-369 | A button is pressed if and only if one of its two pins is, or, where axes are used for buttons, its axis goes the way it is bound: up with a plus sign, down with a minus sign |
| InputMap.PlainOrDirection | source/ControllerLib/Controllers/BaseController.cpp:316-360 | The buttons pressed that way are all the real ones but the eight directions of the sticks |
| InputMap.SimulateCombos | source/ControllerLib/Controllers/BaseController.cpp:371-384 | The loop over the combos up to the first empty slot leaves the buttons of the specification |
| InputMap.MapRawInputToNormalized | source/ControllerLib/Controllers/BaseController.cpp:304-385 | The whole mapping of a report: dead zones, sticks, buttons and combos, in the source's order |
| InputMap.AxisIsTwoSteers | source/ControllerLib/Controllers/BaseController.cpp:329-340 | A stick axis depends on its own two directions only, the second one last |
| InputMap.PinsMoveFully | source/ControllerLib/Controllers/BaseController.cpp:336-339 | With a pin of the axis pressed: one of the second direction moves it all the way; one of the first does unless the second direction's own reading pushes, which then decides |
| InputMap.AnyStickInRange | source/ControllerLib/Controllers/BaseController.cpp:329-340 | For every configuration and report the axes lie in [-1, 1] and the Switch positions in [-32767, 32767] |
| InputMap.HalvesReassemble | source/ControllerLib/Controllers/BaseController.cpp:329-340 | The two halves of one axis put together again are clamp(factor * axis), turned the way the axis is bound |
| InputMap.ReadingDrivesStick | source/ControllerLib/Controllers/BaseController.cpp:304-340 | For an axis bound to both directions without pins, the Switch position is the converted axis value of the raw reading |
| InputMap.StickNeverTurnsBack | source/ControllerLib/Controllers/BaseController.cpp:304-340 | Of two reports, the one with the larger reading never has the stick further back, whatever else they say |
| InputMap.StickRange | source/ControllerLib/Controllers/BaseController.cpp:304-340 | The position is in range, and at the reading's ends it is at the stick's ends if and only if the factor is at least 100 |
| InputMap.StickRests | source/ControllerLib/Controllers/BaseController.cpp:387-396 | Over the dead zone the position is 0 |
| InputMap.CombosPressNoMore | source/ControllerLib/Controllers/BaseController.cpp:371-384 | Running the combos never increases the number of pressed buttons |
| InputMap.ComboSwaps | source/ControllerLib/Controllers/BaseController.cpp:378-383 | A combo whose two buttons are down lets go of both and presses the one it stands for, unless that is one of the two; it changes no other button, and otherwise nothing |
| InputMap.CombosInOrder | source/ControllerLib/Controllers/BaseController.cpp:372-384 | Combos act one after the other, each on what those before it left |
| InputMap.NoComboIsSkipped | source/ControllerLib/Controllers/BaseController.cpp:372-376 | Where used slots come first, stopping at the first empty one gives what running all used slots gives |
| InputMap.HalfComboNeverFires | source/ControllerLib/Controllers/BaseController.cpp:378-383 | A combo with an unnamed button changes nothing, because button 0 is never pressed and no combo presses it |
| Ini.StripRight | source/Ini/ini.c:35-41 | The string at the pointer loses exactly its trailing blanks, in place, and the buffer behind it is untouched |
| Ini.SkipLeft | source/Ini/ini.c:44-49 | Points at the first character that is no blank; the string there is the rest |
| Ini.FindCharsOrComment | source/Ini/ini.c:54-71 | Points at the first of the characters, or of a comment with a blank before it, or at the terminator |
| Ini.Trim | source/Ini/ini.c:140-149 | Leaves the line without a leading byte order mark and blanks at both ends, and tells the column it begins at |
| Ini.SplitPair | source/Ini/ini.c:186-195 | Cuts a pair in place and yields the name and the value, neither with blanks around it, the value without its comment |
| Ini.IniParser.SectionLine | source/Ini/ini.c:164-179 | A header up to its bracket becomes the section, cut to 71 characters, and forgets the last name; without a bracket the first such line is the error |
| Ini.IniParser.PairLine | source/Ini/ini.c:180-207 | A pair is handed out and its name, cut to 71 characters, remembered; without a separator the first such line is the error |
| Ini.IniParser.ParseTextAt | source/Ini/ini.c:151-207 | Blank and comment lines do nothing, an indented line continues the last name, and the rest are headers or pairs |
| Ini.IniParser.ParseBuffered | source/Ini/ini.c:138-207 | One line, taken apart in place, changes section, last name, line number, error and events as the specification of a line says |
| IniLines.PairReads | source/Ini/ini.c:138-207 | Any line made of a name, blanks, an equals sign or a colon, blanks, a clean value, and blanks or a comment with a blank before it is handed out as exactly that name and value; indented only where there is no pair to continue |
| IniLines.ValueReads | source/Ini/ini.c:54-71 | A clean value is read without the blanks around it and without the comment behind it |
| IniLines.CommentLine | source/Ini/ini.c:149-154 | A line of blanks, or one that begins with a semicolon or a number sign behind blanks, is counted and does nothing else |
| IniLines.ContinuationReads | source/Ini/ini.c:155-163 | An indented line behind a pair is one more value of its name, whole, with whatever separators and brackets it has |
| IniLines.HeaderReads | source/Ini/ini.c:164-174 | A header is the section up to its first bracket, cut to 71 characters, whatever follows, and ends the last pair |
| IniLines.MarkIsSkipped | source/Ini/ini.c:140-148 | A byte order mark before the first line is as if it were not there |
| IniLines.LineFails | source/Ini/ini.c:149-207 | A line is an error if and only if it is neither comment nor continuation and lacks, before any comment, its bracket or its separator; an error already noted stays |
| IniLines.ErrorIsFirst | source/Ini/ini.c:74-220 | Parsing any lines returns the number of the first such line, and zero if and only if there is none |
| IniReaders.Stream.LineByLineCallback | source/Sysmodule/source/config_handler.cpp:403-418 | Delivers the next line without its newline if the newline comes within the buffer, and nothing otherwise |
| IniReaders.Stream.ReaderString | source/Ini/ini.c:244-269 | Delivers the next line with its newline, or as much of it as fits the buffer; nothing only at the end |
| IniReaders.ParseStream | source/Ini/ini.c:74-220 | The loop parses exactly the lines the reader delivers, for both readers and any text |
| IniReaders.NewlineIsBlank | source/Ini/ini.c:149 | A trailing newline makes no difference to a line |
| IniReaders.ReadersAgree | source/Sysmodule/source/config_handler.cpp:403-418 | Text without NULs whose lines end and fit the buffer is parsed to the same events, section and name through both readers; line numbers differ by the lines of 1151 characters, so the first error line is the same if and only if no such line precedes it |
| IniReaders.LongLineShiftsError | source/Ini/ini.c:244-269 | The differing input: behind a comment of 1151 characters an error is on line 2 for the file callback and on line 3 for the string reader |
| IniReaders.UnfinishedLineIsDropped | source/Sysmodule/source/config_handler.cpp:403-418 | Through the file callback whatever follows the last newline is never delivered |
| IniReaders.TailIsTheDifference | source/Ini/ini.c:244-269 | For text that ends in the middle of a line, the string reader parses that one line more than it would without it, and the file callback nothing |
| IniReaders.LinesAfter | source/Sysmodule/source/config_handler.cpp:403-418 | Behind text whose lines end and fit, more text is delivered as by itself |
| VidPid.PrintParses | source/Sysmodule/source/config_handler.h:22-42 | Every vendor and product id survives being printed and read back |
| VidPid.PrintIsInjective | source/Sysmodule/source/config_handler.h:35-42 | Different ids have different section names |
| Config.ApplyWrites | source/Sysmodule/source/config_handler.cpp:310-401 | A line changes exactly the fields its key names, to what its value alone decides |
| Config.AddComboAppends | source/Sysmodule/source/config_handler.cpp:343-351 | A combo goes behind those in use, which stay first and unchanged; a full table stays as it is |
| Config.ApplyKeeps | source/Sysmodule/source/config_handler.cpp:338-351 | After any line used combo slots form a prefix, and the combos in use are those before and the line's own, as many as fit |
| Config.ApplyKeepsPins | source/Sysmodule/source/config_handler.cpp:322-327 | Where all stored pins are below 36, a line keeps them so if and only if it binds to a button no misread token among its first two pins |
| Config.TokensFill | source/Sysmodule/source/config_handler.cpp:213-236 | The pins stored are the bytes of the first two number tokens whose int is below 36 |
| Config.BindingInRange | source/Sysmodule/source/config_handler.cpp:215-223 | Both pins of a value are below 36 if and only if neither of those two tokens is misread: its int negative, its low byte 36 or more |
| Config.MisreadExactly | source/Sysmodule/source/config_handler.cpp:217-222 | In terms of the digits: as a 64-bit long that stops at its end, the number's low 32 bits are 2^31 or more and its low byte is 36 or more |
| Config.HugePinIsStored | source/Sysmodule/source/config_handler.cpp:217-222 | The failing input: 4294967295 passes for a pin, and 255 is stored |
| ConfigNames.ButtonNameIsKey | source/Sysmodule/source/config_handler.cpp:321-322 | Each button's name is the key of that button |
| ConfigNames.WordIsKey | source/Sysmodule/source/config_handler.cpp:328-337 | driver, profile, the two packet sizes and controller_type are the keys at their places |
| ConfigNames.SimulateIsKey | source/Sysmodule/source/config_handler.cpp:338-342 | simulate_ and a button's name is the combo key of that button |
| ConfigNames.DeadzoneIsKey | source/Sysmodule/source/config_handler.cpp:356-371 | deadzone_ and the name of an axis up to dial is the dead zone of that axis |
| ConfigNames.FactorIsKey | source/Sysmodule/source/config_handler.cpp:372-387 | factor_ and the name of an axis up to dial is the factor of that axis |
| ConfigNames.ColorIsKey | source/Sysmodule/source/config_handler.cpp:388-395 | The four colour keys are those of body, buttons, left and right grip |
| ConfigNames.NumberReads | source/Sysmodule/source/config_handler.cpp:215-217 | Every number below 2^31 is read as it is written in decimal, with or without a sign, whatever stands behind its digits |
| ConfigNames.ColorReads | source/Sysmodule/source/config_handler.cpp:115-138 | Every colour is read as it is written in hexadecimal, red first, behind a number sign or not; three bytes are opaque |
| ConfigNames.TokensRead | source/Sysmodule/source/config_handler.cpp:203-235 | What stands between delimiters is a token, and delimiters next to each other make none |
| ConfigNames.ComboReads | source/Sysmodule/source/config_handler.cpp:178-191 | Two names with a plus between them are the combo's two buttons, in this order, and one name is the first |
| ConfigNames.LookupTells | source/Sysmodule/source/config_handler.cpp:56-110 | A word is looked up by its lower-case form, and nothing is found only if no place behind the first spells it |
| ConfigNames.ValueSaysAxis | source/Sysmodule/source/config_handler.cpp:140-176 | The axis a value binds is that of its last token that is no number: sign -1 if and only if it begins with a minus, the axis named behind the sign in either case, or none; without such a token, none with sign 0 |
| ConfigNames.SignedAxisBinds | source/Sysmodule/source/config_handler.cpp:140-176 | A sign and the name of an axis bind that axis with that sign, and no pin |
| ConfigHandler.ParseBinding | source/Sysmodule/source/config_handler.cpp:201-237 | The token loop yields the pins and the axis of the specification, which `Config.TokensFill` and `ConfigNames.ValueSaysAxis` describe |
| ConfigHandler.ParseHotKey | source/Sysmodule/source/config_handler.cpp:178-191 | The first two names become the combo's buttons, an absent or unknown one none |
| ConfigHandler.ConfigIniData.AddSimulated | source/Sysmodule/source/config_handler.cpp:343-351 | The loop puts the combo into the first free slot and changes nothing else |
| ConfigHandler.ConfigIniData.ParseControllerConfigLine | source/Sysmodule/source/config_handler.cpp:310-401 | One event changes the configuration as one line does if it is of the section looked for, and marks the section as found |
| ConfigHandler.ConfigIniData.ReadFromConfig | source/Sysmodule/source/config_handler.cpp:420-430 | A pass over the file applies exactly the section's lines, in order, and returns the first error's line |
| ConfigHandler.LoadControllerConfig | source/Sysmodule/source/config_handler.cpp:516-570 | The passes, the early returns on an error, and the appended section: return value, configuration and file are those of the specification of a load |
| ConfigFile.PassIsOver | source/Sysmodule/source/config_handler.cpp:310-401 | A pass over the lines overlays what the section writes on the configuration, field by field |
| ConfigFile.LastLineWins | source/Sysmodule/source/config_handler.cpp:310-401 | Each field a section writes holds what its last line for that field says |
| ConfigFile.PassKeepsSound | source/Sysmodule/source/config_handler.cpp:338-351 | Any pass keeps used combos first and appends the section's combos while there is room |
| ConfigFile.PassKeepsPins | source/Sysmodule/source/config_handler.cpp:310-401 | Pins below 36 stay so over a pass if and only if no button's last line in the section binds a misread token |
| ConfigFile.RereadingOverrides | source/Sysmodule/source/config_handler.cpp:547-562 | Section, profile, section again leaves every overwriting field as profile, section would |
| ConfigFile.LoadOverrides | source/Sysmodule/source/config_handler.cpp:516-570 | After a successful load every field but the combos holds what the controller's section says last, else the profile, else [default], else what it held |
| ConfigFile.OwnSectionWins | source/Sysmodule/source/config_handler.cpp:556-562 | What the controller's own section says holds, whatever the profile and [default] say |
| ConfigFile.LoadedCombos | source/Sysmodule/source/config_handler.cpp:516-570 | The combos after a load are those of [default], the section, the profile and, with a profile, the section once more, as many as fit; used slots come first |
| ConfigFile.LoadedPins | source/Sysmodule/source/config_handler.cpp:516-570 | After a load all stored pins are below 36 if and only if, for each button, the line that decides its pins (the section's, else the profile's, else [default]'s) binds no misread token |
| ConfigFile.LoadBinds | source/Sysmodule/source/config_handler.cpp:516-570 | After a load each button's pins and axis are those of the line that decides it: the section's last, else the profile's, else [default]'s, else what it held |
| ConfigFile.LoadStatus | source/Sysmodule/source/config_handler.cpp:516-570 | A load returns the first error of the file, -1 if a section is to be added and cannot be, else the first error of the longer text; the file grows if and only if a section is added |
| ConfigFile.FailedLoadKeeps | source/Sysmodule/source/config_handler.cpp:518-545 | A failed load leaves [default]'s lines and, unless the file itself had an error, the section's on top |
| StickConfig.BindingLineReads | source/Sysmodule/source/config_handler.cpp:310-327 | A line with a button's name in either case and a clean value is that button's binding, whatever blanks and comments are around |
| StickConfig.BoundSticksOppose | source/ControllerLib/Controllers/BaseController.cpp:316-339 | If the lines that decide the two directions of a stick name one axis with opposite signs, the loaded configuration has that axis drive both halves: in the stick's sense where left has the minus sign or up the plus sign, and turned round otherwise |
| StickConfig.FileDrivesStick | source/ControllerLib/Controllers/BaseController.cpp:304-340 | From file to stick: with such lines the Switch position is the converted axis value of the raw reading if left or up has the minus sign, and its negative if it has the plus sign |
| ConfigAppend.HeaderParses | source/Sysmodule/source/config_handler.cpp:483 | The header written for a section is parsed back to that section, whatever the date behind it says |
| ConfigAppend.PairParses | source/Sysmodule/source/config_handler.cpp:485-503 | A written pair is parsed back to one event under its name |
| ConfigAppend.ReadBackExact | source/Sysmodule/source/config_handler.cpp:485-488 | A written value comes back as it was if and only if it has no blanks at its ends and no inline comment |
| ConfigAppend.AppendedLinesParse | source/Sysmodule/source/config_handler.cpp:481-505 | Behind any text whose lines fit, the appended section parses to exactly its own events, after those of the old text with its last line ended, and brings no error |
| ConfigAppend.BlankLineParses | source/Sysmodule/source/config_handler.cpp:482 | The newline written first changes no event and no error of text that already ends with one |
| ConfigAppend.AppendedFileLines | source/Sysmodule/source/config_handler.cpp:481-505 | The same for what the line handlers see: the old file's lines, then the new section's |
| ConfigAppend.IdIsAppendable | source/Sysmodule/source/config_handler.cpp:456-505 | Every id, with a date of at most 64 characters and a clean profile of at most 1024, neither with a newline or NUL, makes a section that can be appended |
| ConfigAppend.AddedControllerIsFound | source/Sysmodule/source/config_handler.cpp:534-545 | An unknown controller is added by the load, which then finds its section; the load fails only for an error in what was the file's unfinished last line |
| ConfigAppend.AddedControllerIsLoaded | source/Sysmodule/source/config_handler.cpp:534-562 | The load that added the controller already goes by it: its profile is used, or the twelve buttons are on pins 1 to 12 |
| ConfigAppend.AddingLeavesOthers | source/Sysmodule/source/config_handler.cpp:481-505 | Adding a controller leaves what every other section of the file says as it was |
| ConfigAppend.LoadingAgainAppendsNothing | source/Sysmodule/source/config_handler.cpp:534-545 | After a load that added a controller, the next load appends nothing if and only if every line of the file fits the parser's buffer; otherwise it appends the section again |

## Left out

- Floating-point rounding: `float` arithmetic is over exact reals, truncation towards zero and the C integer division are kept.
- Integer overflow of `max + min` and of the differences in `Normalize`. `atoi` and `strtol` on numbers that do not fit go by the console's C library, a 64-bit `long` that stops at its ends and is then cut to an `int`; C itself leaves `atoi` undefined there.
- The wrap-around of the 64-bit sampling number: it is a natural number.
- `Normalize` is stated where the centre lies strictly between the ends, and dead zones below 100 percent, because the source divides by zero otherwise.
- Axis.AxisValue: stated for readings normalised with the middle of the range as centre; the Switch controller's fixed centre of 2000 is in `SwitchPad`.
- SharedMemory.NpadState.Initialize: does not model the colours, battery, device type and system properties that the cleared state also gets.
- TouchMirror.TouchEntry.constructor: the initial copy of a live ring is taken at once, so a copy torn by a concurrent append is not modelled; whatever the fake rings start with is treated as their past, given a usable header.
- TouchMirror.TouchEntry.OnRunEntry: one entry's pass; the loop over all entries, the thread around it and its sleep are not modelled. Between the passes of one entry anything may happen to its live ring.
- TouchMirror.MirrorIsFaithful: a copy of a slot is one step, so a copy torn by a seventeenth append is not described; calm runs exclude it.
- Memory ordering: loads and stores take effect in program order, which is what the release stores and the 64-bit copies are there for.
- Entries are never removed (the garbage collector and the reuse of entries are switched off), and the creation of an entry in the system's hands is a status.
- Gamepad.SwitchMITMHandler.UpdateInput: the buttons and sticks come in as they are to be written; they do not matter to attaching, apart from L and R. The rings that a pad made in the call writes are found by the first free slot beforehand.
- PadSystem.RunsAreSound: calls of different handlers are taken one after the other, as the table's mutex lets them.
- The buttons' bits, device types, colours, rumble, logging, timing, threads, sleeps and priorities.
- Endpoint.SwitchUSBEndpoint.ReadAsync: the USB stack is a list of answers, one for each post and each wait; its ids are all different, and it never completes a transfer with more bytes than were asked for. All transfers of an endpoint share one buffer; a report's data are what that buffer holds when the report is fetched. The blocking read without a time-out is not modelled.
- Scheduler.BaseController.ReadNextBuffer: a device has at most 256 endpoints, which the cursor's byte needs.
- WiiAdapter.WiiController.ReadNextBuffer: the read of the layer below is given by its status, its size and the 37 bytes it leaves; `Scheduler` models that layer.
- WiiAdapter.WiiController.ParseConnection: the buttons and axes of a report are field copies and not modelled, nor is rumble.
- SwitchPad.SwitchController.ParseData: the buttons of a report are field copies and not modelled.
- The drivers for Xbox, DualShock 3, Steam and generic HID controllers: they copy fields out of a report, or rely on a descriptor parser that is not part of this model.
- InputMap.MapRawInputToNormalized: stated for configurations whose pins are below 36; a misread pin indexes past the raw buttons, and what is read there is not modelled (`ConfigFile.LoadedPins` says when there is one).
- Reading a report in `BaseController::ReadInput` is only the sequence of a read, a parse and a mapping, which are modelled one by one.
- Ini.IniParser.ParseBuffered: handlers accept every event, as those of this program do, so the error a refusing handler would cause is not modelled. Characters are bytes; letters are the ASCII ones.
- ConfigHandler.ConfigIniData.ReadFromConfig: the handler is called for the events after the parse and not in between, which makes no difference to it; a file that cannot be opened for reading (return value -1) is not modelled. That a file cannot be appended to is.
- The global configuration (`LoadGlobalConfig`), whose keys are plain assignments.
- ConfigAppend.AddedControllerIsLoaded: the date is any text on one line; reading the clock is not modelled. Stated for text whose lines fit the parser's buffer, since the reader gives up at a longer one.
- IniReaders.ReadersAgree: text with a line of more than 1151 characters, at which the file reader stops and the string reader goes on in pieces.
- StickConfig.FileDrivesStick: stated for dead zones below 100 percent and pins below 36, and for reports whose pin 0, which stands for no pin, is up.
