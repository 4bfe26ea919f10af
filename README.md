# Xsens MTw receive script, modelled in Dafny

`xdamtwreceive.py` drives an Xsens Awinda wireless master and its MTw
motion trackers through the vendor's `xda` API. It:

- finds the master among the scanned ports and configures it;
- sets the supported update rate closest to 75 Hz;
- enables the radio on channel 19;
- waits for trackers to connect, then switches to measurement mode;
- creates one callback per tracker and creates the log file `logfile.mtb`;
- waits until every tracker has delivered data, then records;
- in its main loop, takes the oldest buffered packet of each tracker and keeps its Euler orientation.

Every run in which its waiting loops end, by their own condition or by an interrupt, also closes the control object at the end.

The project models:

- `UpdateRate`: the rate choice, `find_closest_update_rate`.
- `Connectivity`: the master's connectivity callback. It is a class holding the set of connected trackers, updated by each connectivity event.
- `PacketBuffer`: the per-tracker callback. It is a class holding a bounded FIFO of packets (the `deque(maxlen=300)`). A history model interleaves deliveries with the main loop's three separate calls (check, read, pop) and proves the FIFO order.
- `MtwSetup`:
  - filtering the enumerated device ids to trackers;
  - resolving the ids to device handles;
  - creating the callbacks;
  - the "every tracker has data" barrier.
- `Ingestion`: one pass of the main loop, as a method over the array of Euler readings.
- `Control`:
  - choosing the wireless master;
  - the wait-for-connections loop, as a method;
  - the whole `try`/`except`/`close()` sequence, as a run over a `Script`. A `Script` records what every device call reports. `Plan` gives the steps in source order, and `Run` executes them up to the first one that raises, then always closes.
- `Xda`: value types for the vendor objects the logic inspects. `Common` holds `Option` and `Embeds`, the order-preserving sub-sequence relation.

Each method of the two callback classes is one atomic step. In the source every method that touches the set or the deque holds the object's lock for its whole body. `getMtwIndex` and `device()` take no lock; they read fields set once in the constructor.

## Model

| member | source | states |
|---|---|---|
| UpdateRate.ClosestUpdateRate | xdamtwreceive.py:51-59 | No supported rates gives 0, and a single rate gives that rate. Otherwise the result is a supported rate that no supported rate beats in distance to the desired rate, and every rate listed before it is strictly farther (Python's `min` keeps the first of equals). |
| UpdateRate.FirstClosestIndex | xdamtwreceive.py:58 | The index found by the `min(..., key=abs(x - desired))` scan is valid. Its element is at minimal distance, and every earlier element is strictly farther. |
| UpdateRate.ClosestUpdateRateIsUnique | xdamtwreceive.py:51-59 | The contract determines the result: the first element at minimal distance is exactly the rate returned. |
| UpdateRate.ClosestUpdateRateExample | xdamtwreceive.py:183 | Supported rates 50, 60 and 120 with 75 desired give 60. |
| Connectivity.AfterEvent | xdamtwreceive.py:71-93 | After an event the device is in the connected set exactly when the new state is `Wireless`. Every other device's membership is unchanged. |
| Connectivity.AfterEventIdempotent | xdamtwreceive.py:71-93 | Delivering the same event twice leaves the same set as delivering it once. |
| Connectivity.AfterEventNoopCases | xdamtwreceive.py:75-93 | Two events change nothing: a non-`Wireless` event for an absent device (`discard` of a missing element), and a `Wireless` event for a present device (`add` of a present element). |
| Connectivity.ApplyEvents | xdamtwreceive.py:71-93 | A history of connectivity callbacks applied to the set, oldest first. |
| Connectivity.MembershipFollowsLastEvent | xdamtwreceive.py:71-93 | After any history of events, a device is connected exactly when the last event about it was `Wireless`. A device never mentioned keeps its initial membership. |
| Connectivity.WirelessMasterCallback.constructor | xdamtwreceive.py:62-65 | The connected set starts empty. |
| Connectivity.WirelessMasterCallback.GetWirelessMTWs | xdamtwreceive.py:67-69 | Returns a copy equal to the connected set and changes nothing. |
| Connectivity.WirelessMasterCallback.OnConnectivityChanged | xdamtwreceive.py:71-93 | After the event the device is a member exactly when the state is `Wireless`, and no other device's membership changes. The new set is `AfterEvent` of the old one. |
| PacketBuffer.Newest | xdamtwreceive.py:98 | What a bounded deque keeps: the last min(n, 300) elements, in order. |
| PacketBuffer.NewestOfNewest | xdamtwreceive.py:126 | Evicting early does not change what a later truncation keeps. |
| PacketBuffer.MtwCallback.constructor | xdamtwreceive.py:96-101 | The buffer starts empty, with the given index and device. |
| PacketBuffer.MtwCallback.DataAvailable | xdamtwreceive.py:103-105 | True exactly when the buffer is non-empty. Nothing changes. |
| PacketBuffer.MtwCallback.GetOldestPacket | xdamtwreceive.py:107-110 | Returns the front packet, requires a non-empty buffer (as `deque[0]` does) and changes nothing. |
| PacketBuffer.MtwCallback.DeleteOldestPacket | xdamtwreceive.py:112-114 | Removes exactly the front packet, requires a non-empty buffer (as `popleft` does) and keeps the 300 bound. |
| PacketBuffer.MtwCallback.GetMtwIndex | xdamtwreceive.py:116-117 | Returns the index the callback was created with. |
| PacketBuffer.MtwCallback.OnLiveDataAvailable | xdamtwreceive.py:123-128 | The new buffer is the newest 300 of the old buffer followed by the packet. The bound still holds, and the explicit `> 300` branch is unreachable. |
| PacketBuffer.AppendAllKeepsNewest | xdamtwreceive.py:123-128 | Appending packets one at a time keeps exactly the newest 300 of everything appended. |
| PacketBuffer.BufferAfterAppends | xdamtwreceive.py:98-128 | From empty, after n appends the buffer holds at most 300 packets: the last min(n, 300), in arrival order. |
| PacketBuffer.Step | xdamtwreceive.py:103-128 | One atomic call on one buffer. A delivery is `onLiveDataAvailable`. The main loop's call is `dataAvailable`, then `getOldestPacket`, then `deleteOldestPacket` (lines 274-278), each under the lock on its own. |
| PacketBuffer.Replay | xdamtwreceive.py:103-128 | Any interleaving of deliveries and the main loop's calls on one buffer, oldest first. |
| PacketBuffer.StepKeepsConsistent | xdamtwreceive.py:103-128 | Every delivery or call keeps the invariant. The buffer holds at most 300 packets, and a successful check is not undone before the pop. The packets read, followed by the packets still readable, stay an ordered sub-sequence of the packets delivered. This holds also when a delivery evicts the packet just read. |
| PacketBuffer.ReplayKeepsConsistent | xdamtwreceive.py:103-128 | The invariant holds after any interleaving. |
| PacketBuffer.FifoOrder | xdamtwreceive.py:98-278 | From an empty buffer, under any interleaving, the packets read followed by those still readable are an ordered sub-sequence of the packets delivered. So nothing is read twice or out of order, and nothing is invented. |
| PacketBuffer.ConsumerNeverFindsEmpty | xdamtwreceive.py:274-278 | Once `dataAvailable` has said yes, the buffer stays non-empty until the pop, whatever arrives meanwhile. So `getOldestPacket` and `popleft` never meet an empty deque, and the 300 bound holds. |
| PacketBuffer.PeekEvictPopRace | xdamtwreceive.py:123-278 | If a delivery reaches a full buffer between the read and the pop, it evicts the packet just read. The pop then removes the next packet, which is never read. |
| MtwSetup.MtwIds | xdamtwreceive.py:227 | Every id kept is a tracker id; an id is kept exactly when it is enumerated and is a tracker. |
| MtwSetup.MtwIdsKeepOrder | xdamtwreceive.py:227 | The filtered ids keep the enumeration order. |
| MtwSetup.MtwIdsCounts | xdamtwreceive.py:227 | Each tracker id is kept as often as it is enumerated, and every other id is dropped. |
| MtwSetup.ResolvableAfterFilter | xdamtwreceive.py:227-234 | Every filtered id has a device handle exactly when every tracker id of the enumeration has one. |
| MtwSetup.ResolveMtwDevices | xdamtwreceive.py:228-234 | Succeeds exactly when every id has a handle, giving the handles in id order. Otherwise it yields no list. |
| MtwSetup.CreateCallbacks | xdamtwreceive.py:237 | One fresh, empty, distinct callback per device. The callback at position i has index i and device i. |
| MtwSetup.InstantiateMtws | xdamtwreceive.py:226-237 | No callbacks exactly when some tracker id is unknown. Otherwise there is one fresh, empty, distinct callback per tracker id, in enumeration order, where callback i has index i and the handle of tracker id i. |
| MtwSetup.AllDataAvailable | xdamtwreceive.py:252 | Ready exactly when every callback has a buffered packet, which is vacuously true with no trackers. |
| Ingestion.TakeOldest | xdamtwreceive.py:274-278 | With data, the front packet is removed and its orientation stored in slot i. Without data, nothing changes. No other slot changes. |
| Ingestion.IngestOnce | xdamtwreceive.py:272-278 | Each tracker with data loses exactly its oldest packet, whose orientation lands in its slot. Trackers without data and their slots are unchanged. The flag is true exactly when some tracker had data. |
| Control.FindWirelessMaster | xdamtwreceive.py:151-153 | The result is none exactly when no scanned port is a wireless master. Otherwise it is the first such port. |
| Control.AwaitTrackers | xdamtwreceive.py:208-217 | Reports every polled count that differs from the previous one, and ends with the last count polled. |
| Control.CountChanges | xdamtwreceive.py:209-215 | The counts the wait loop reports: each polled count that differs from the count last seen. |
| Control.CountChangesAreTransitions | xdamtwreceive.py:209-215 | Soundness: each report differs from the count before it, and reports follow the polls in order. Nothing is reported exactly when no poll differs from the initial count. The last report is the final count. |
| Control.CountChangesSnoc | xdamtwreceive.py:212-215 | Completeness: one more poll adds a report exactly when it differs from the count last seen, and then the report is that poll. |
| Control.StepOutcome | xdamtwreceive.py:151-297 | The error each step raises: the `raise RuntimeError` of each failed device call. The three polling loops fail only by an interrupt. |
| Control.PlanFrom | xdamtwreceive.py:145-297 | The steps of the `try` block from one phase on: the setup, then the disable step only when the radio is enabled, then the rest. |
| Control.Plan | xdamtwreceive.py:145-297 | The steps of the `try` block in source order. |
| Control.PlanShape | xdamtwreceive.py:145-297 | The plan has 16 steps, or 15 when the radio is off. It starts with finding the master and holds the steps in source order, skipping only the disable step. |
| Control.PlanIsOrdered | xdamtwreceive.py:145-297 | The planned steps are in strictly increasing source order. The plan never contains the close, and it contains the disable step exactly when the master reports the radio enabled. |
| Control.FirstFailureBound | xdamtwreceive.py:145-299 | No step before the first failing step raises. |
| Control.FailureOfFirst | xdamtwreceive.py:299-304 | The recorded failure is the error of the first step that raises, and there is none when no step raises. |
| Control.Run | xdamtwreceive.py:145-307 | Every run starts by looking for the master and ends with `control.close()`. |
| Control.RunAttemptsPrefix | xdamtwreceive.py:145-307 | Before the close, a run attempts exactly the plan's steps up to and including the first failing one. |
| Control.CloseOnlyAtEnd | xdamtwreceive.py:306-307 | The close is attempted once, as the last step. |
| Control.NotAttemptedAfter | xdamtwreceive.py:145-299 | Once a planned step fails, no later step except the close is attempted. |
| Control.FailingStepEndsRun | xdamtwreceive.py:145-304 | An attempted step that fails is the last step before the close, and its error is the run's failure. |
| Control.DisableRadioOnlyWhenEnabled | xdamtwreceive.py:192-194 | Setup disables the radio only when the master reported it enabled. |
| Control.FailedDisableSkipsEnable | xdamtwreceive.py:192-198 | If disabling an enabled radio fails, the radio is not enabled on any channel, and neither the tracker wait nor the main loop runs. |
| Control.FailedDisableAborts | xdamtwreceive.py:193-194 | A failed disable aborts the run with the radio-disable error. |
| Control.NoMasterAbortsImmediately | xdamtwreceive.py:151-307 | With no master, the run attempts only the search and the close, and fails with "no master". |
| Control.UnresolvedTrackerSkipsRecording | xdamtwreceive.py:229-262 | A tracker id without a handle means no log file is created, recording never starts and the main loop never runs. |
| Control.UnresolvedTrackerAborts | xdamtwreceive.py:233-234 | A tracker id without a handle aborts the run with the instantiation error. |
| Control.InterruptedTrackerWaitSkipsMeasurement | xdamtwreceive.py:208-307 | An interrupt while waiting for trackers means measurement mode is never entered and the main loop never runs. The run records a failure and still closes. |
| Control.InterruptedDataWaitSkipsRecording | xdamtwreceive.py:251-307 | An interrupt while waiting for first data means recording never starts and the main loop never runs. The run records a failure and still closes. |
| Control.FailureIsRecorded | xdamtwreceive.py:299-304 | Any planned step that raises leaves a failure on record. |
| Control.InterruptSkipsRestore | xdamtwreceive.py:269-307 | A run whose main loop is ended by an interrupt closes the control object without restoring config mode or disabling the radio, and records a failure. |
| Control.SuccessfulRunAttemptsEverything | xdamtwreceive.py:145-307 | A run records no failure exactly when every planned step succeeds. Such a run attempted the whole plan and then the close. |

## Left out

- Device and driver calls are out: port scan, `openPort`, `device`, mode changes, update rate, radio, `deviceIds`, log file and recording. Each is replaced by the outcome it reports, as a field of `Control.Script`. Any error they raise is not modelled.
- The polling loops' timing is out: `time.sleep`, the polling rates, and `keyboard.is_pressed('y')`. The wait-for-connections loop is given the sequence of counts it polls. In `Control.Run` each of the three polling loops either ends by its own condition or is interrupted; that is a field of `Control.Script`.
- Locks and threads: each locked callback method is one atomic step. For one buffer, the interleavings the locks allow are the histories of `PacketBuffer.Replay`: whole deliveries mixed with the main loop's check, read and pop as three separate calls. For the master's callback they are the histories of `Connectivity.ApplyEvents`.
- Ingestion.IngestOnce: its contract describes one pass with no delivery during the pass. Deliveries between the calls of a pass are covered, buffer by buffer, by `PacketBuffer.Replay`, `PacketBuffer.FifoOrder` and `PacketBuffer.PeekEvictPopRace`.
- Control.Run: it describes only runs whose polling loops end. If 'y' is never pressed or a tracker never delivers data, the waits at lines 210-217 and 251-255 spin forever and `close()` is never reached; such a run has no `Run` value.
- All printing is out, along with `XsPortInfoStr`, `XsDeviceStr` and the main loop's print counter, which only decides what to print.
- `MtwCallback.device()` (lines 119-121) is a plain accessor, modelled as the `device` field.
- Attaching callback handlers (lines 173 and 239) does not appear in the state.
- Euler angles are kept as opaque values; no floating-point arithmetic is modelled.
- `XsControl.construct()` failing before the `try` block (lines 140-143) is out.
- `user_input_ready()` (lines 204-205) is a stub that always returns `False`. As written, only an interrupt ends the main loop, and the bare `except:` catches it. `Control.LoopExit` keeps both exits, so the final config-mode and radio-disable steps are modelled, although only a changed stub can reach them.
- `Control.Run` models every raised error as abortive. The bare `except:` also catches errors the model does not distinguish; they are folded into the per-step failures.
- `control.device` returning `None` for the master (lines 162-164) raises like the other setup failures. The model gives it its own failure, `MasterDeviceError`.
- `OnLiveDataAvailable`: as written, its `len > 300` branch would call `deleteOldestPacket` while holding the same non-reentrant lock. The branch is unreachable, because the `deque(maxlen=300)` already evicts the oldest element, so the model keeps it as a proved-dead branch.
