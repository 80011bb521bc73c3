# idevice mirror — a verified model of the command and streaming core

idevice mirror is a desktop application that shows the screen of an attached iOS
device. It has two halves that talk over two unbounded channels:

- a **GUI** (`MyApp`), which repaints on every frame tick, takes at most one event
  from the worker per repaint, keeps the device list, the device-information rows,
  the streaming flag, the screenshot texture and a sliding-window frame counter,
  and sends commands when a button is clicked;
- a **device worker**, a loop that handles one command at a time: it lists
  devices over usbmuxd and lockdown, reads the information of one device, and
  spawns or aborts a single screenshot task, which captures, decodes and sends
  frames until a capture fails or the GUI is gone.

The model keeps the state and the decisions of both halves and replaces every
call into the device library, the PNG decoder, the clock and egui with given
outcomes:

| file | module | models |
|---|---|---|
| `wrappers.dfy` | `Wrappers` | `Option` |
| `plist.dfy` | `PropertyList` | lockdown property-list values and the "string under this key" lookup |
| `messages.dfy` | `Messages` | devices, errors, images, and the two command enums |
| `device_info.dfy` | `DeviceInfo` | the five-row device-information table and its extraction loop |
| `device_list.dfy` | `DeviceList` | the `GetDevices` map-building loop and its single event |
| `capture.dfy` | `Capture` | the screenshot task's capture loop and its exit policy |
| `frame_window.dfy` | `FrameWindow` | the frame-arrival window: the push, the front trim, and what it keeps |
| `dispatcher.dfy` | `Dispatch` | the worker loop, its sends to the GUI and the `screenshot_task` slot |
| `app.dfy` | `Gui` | `MyApp`: `update`'s event handling, the texture policy, the click effects |

Timestamps are integers in nanoseconds; the window is two seconds
(`FpsWindow = 2_000_000_000`). The displayed rate `fps` is `len / 2.0` in the
source; the model keeps its numerator `fpsCount`, and `MirrorApp.Valid()` states
that it always equals the number of retained timestamps, that they are in order,
and that they lie within two seconds of the latest clock reading (a ghost field
`clock`; `Update` requires the clock not to go backwards, as `Instant::now`
guarantees). Channels are sequences:
`MirrorApp.inbox` holds the events not yet received, `MirrorApp.outbox` every
command sent, and `Dispatcher.guiEvents` every event sent. A task handle is a
number, and ghost sets record which tasks Stop aborted and which ones Start
overwrote without aborting them.

Two invariants tie the halves together. `MirrorApp.Valid()` states that the
streaming flag is set exactly when the last Start or Stop sent is a Start, and
that no Start is ever sent while a stream is requested (`NoDoubleStart`). For
such a command sequence, `Dispatcher.Run` proves that the worker never loses a
task handle: no task is left running with its handle overwritten.

Some behaviours one might expect of such an application are not what the code
does; the model follows the code:

- Uniformly spaced arrivals: one might expect `N` arrivals spaced `Δ` apart in a
  window `W` to leave `min(N, floor(W/Δ))` timestamps. The code keeps every
  timestamp `>= now - W`, which is `min(N, floor(W/Δ) + 1)`: frames every 0.5 s
  over a 2 s window leave 5, not 4. `FrameWindow.UniformWindowCount` proves the
  count, and `FrameWindow.HalfSecondFrames` proves the 0.5 s case.
- Stalled stream: one might expect the rate to decay as old timestamps age out.
  The code trims and recomputes only when a frame arrives, so a stalled stream
  keeps showing its last rate; `MirrorApp.Update` changes nothing on an empty channel.
- Texture reuse: one might expect a frame of a different size to allocate a new
  texture. The code allocates only when no texture is held and otherwise overwrites the held one
  whatever the frame's size. `Gui.HeldTextureIsReused` and
  `Gui.OneAllocationPerStream` prove the code's behaviour.
- The code does not look at `is_streaming` when a frame arrives. A frame still
  queued when Stop is clicked therefore allocates a texture again after Stop
  cleared it. `MirrorApp.Update` models this.

## Model

| member | source | states |
|---|---|---|
| DeviceInfo.ExtractDeviceInfo | src/main.rs:125-139 | the pushed rows are at most five; their labels come from the table, in table order and each at most once; a label appears with value `s` exactly when its key holds the string `s` |
| DeviceInfo.InfoOfOrigins | src/main.rs:133-139 | every row comes from one table position; the positions strictly increase; the row carries that field's label and the string under its key; a position contributes a row exactly when its key holds a string |
| DeviceInfo.InfoFollowsTable | src/main.rs:125-139 | the rows are at most five, and their labels follow the table order strictly |
| DeviceInfo.InfoMatchesValues | src/main.rs:133-138 | a (label, value) row is present exactly when the table key of that label holds that string value |
| DeviceInfo.FieldNamesDistinct | src/main.rs:126-132 | the five table labels are pairwise distinct |
| DeviceList.BuildSelections | src/main.rs:75-100 | the map's keys are exactly the devices' string `DeviceName`s (devices with a failed lockdown connect or `get_value`, or without a string name, are skipped); a name maps to the last device that reports it |
| DeviceList.SelectionsKeys | src/main.rs:76-99 | the keys of the assembled map are exactly the names reported by devices with a successful lockdown query |
| DeviceList.SelectionsLastWins | src/main.rs:99 | a later device with a duplicate name overwrites the earlier entry |
| DeviceList.ResolveDevices | src/main.rs:64-106 | exactly one event: `NoUsbmuxd` exactly when usbmuxd is unreachable, `GetDevicesFailure` exactly when listing fails, each carrying its error, and `Devices` with the assembled map otherwise |
| Capture.FirstTerminal | src/main.rs:196-236 | the index of the first iteration that ends the loop: none before it does, and it does unless the sequence ran out |
| Capture.CaptureLoop | src/main.rs:196-236 | the frames sent are the decoded ones before the first capture error or failed send, in order; the exit is the capture error or the closed receiver that stopped the loop; one capture is made per iteration, the stopping one included |
| Capture.ScreenshotTask | src/main.rs:148-236 | a failed connection step before the loop sends nothing; otherwise the task does what the capture loop does |
| Capture.DecodedImagesOrigins | src/main.rs:202-227 | the frames come out in iteration order, one per decoded iteration; decode failures contribute nothing |
| Capture.FirstTerminalAt | src/main.rs:217-234 | the loop stops at the first capture error or failed send, whatever follows it, having sent exactly the frames decoded before it |
| Capture.AbortDeliversPrefix | src/main.rs:196-243 | aborting the task after any number of iterations leaves the GUI with a prefix of the frames the uninterrupted task would send |
| FrameWindow.EvictShape | src/main.rs:316-323 | the trim pops the longest prefix of entries below the cutoff and nothing else |
| FrameWindow.ArriveRetainsNow | src/main.rs:314-323 | after an arrival the window is non-empty, at most one entry longer than before, a suffix of the old window followed by `now`, and ends with `now` |
| FrameWindow.ArriveWithinWindow | src/main.rs:314-323 | for a non-decreasing window with no entry after `now`, the new window is non-decreasing and all its entries lie in `[now - window, now]` |
| FrameWindow.EvictSorted | src/main.rs:316-323 | on a non-decreasing window, the front trim keeps exactly the entries at or after the cutoff |
| FrameWindow.ArriveAllEvicts | src/main.rs:313-323 | a non-decreasing series of arrivals leaves what one trim at the last arrival's cutoff would leave |
| FrameWindow.WindowAfterArrivals | src/main.rs:313-323 | from an empty window, a non-decreasing series of arrivals leaves exactly the arrivals at or after `last - window` |
| FrameWindow.UniformArrivalsCount | src/main.rs:313-326 | among `n` arrivals every `d` nanoseconds, those at or after `last - window` number `min(n, Fit(window, d))`, `Fit` being one more than the whole spacings in the window |
| FrameWindow.UniformWindowCount | src/main.rs:313-326 | from an empty window, `n > 0` arrivals every `d` nanoseconds leave `min(n, k)` timestamps, where `(k - 1) * d <= window < k * d`, i.e. `k == floor(window/d) + 1` |
| FrameWindow.HalfSecondFrames | src/main.rs:313-326 | six frames half a second apart with the two-second window leave five timestamps, a rate of 2.5 |
| Dispatch.OneListEventPerRequest | src/main.rs:64-106 | the worker sends exactly one device-list event per `GetDevices` command, and no other command produces one |
| Dispatch.Dispatcher.constructor | src/main.rs:61 | the worker starts with no recorded screenshot task and nothing sent |
| Dispatch.Dispatcher.Send | src/main.rs:69 | a send reaches the GUI while its end is open; otherwise the `unwrap` panics |
| Dispatch.Dispatcher.HandleGetDevices | src/main.rs:64-107 | exactly the device-list event for usbmuxd's answer is sent |
| Dispatch.Dispatcher.HandleGetDeviceInfo | src/main.rs:108-143 | a failed lockdown connect or `get_value` sends nothing and the loop goes on; otherwise the extracted rows are sent |
| Dispatch.Dispatcher.HandleStart | src/main.rs:144-148 | a new task is spawned and its handle overwrites the recorded one, which is neither aborted nor awaited |
| Dispatch.Dispatcher.HandleStop | src/main.rs:239-244 | the recorded handle is taken, leaving the slot empty, and aborted if there was one; with none recorded nothing happens |
| Dispatch.Dispatcher.Handle | src/main.rs:62-245 | one command: the events it emits, a panic exactly when it must send to a closed GUI, the slot it leaves, the handle Start orphans, the handle Stop takes and aborts, and the spawn (a new handle and session) exactly on Start; every other command leaves the abort set, the handle counter and the sessions alone |
| Dispatch.Dispatcher.Run | src/main.rs:62-246 | the worker handles commands in order and sends their events in order; it panics only on a command that must send to a closed GUI, after every earlier command sent nothing, and with the GUI's end closed it panics exactly when some command must send; starting with no task, a task is recorded exactly when the last Start or Stop handled was a Start; aborted tasks stay aborted, and every task spawned during the run is aborted, orphaned or the recorded one; if no Start follows a Start without a Stop between them, none is orphaned |
| Gui.HeldTextureIsReused | src/main.rs:301-308 | while a texture is held, frames of any sizes allocate nothing and the texture holds the latest frame |
| Gui.OneAllocationPerStream | src/main.rs:301-308 | from no texture, any non-empty series of frames allocates exactly one texture, even when their sizes differ, and leaves the latest frame shown |
| Gui.SendKeepsNoDoubleStart | src/main.rs:416-437 | a Start sent only while no stream is requested keeps "no double start"; Start requests a stream, Stop ends the request, other commands leave it |
| Gui.MirrorApp.constructor | src/main.rs:27-44 | the initial application: no devices, the "Loading..." placeholder, nothing selected or streaming, no texture, an empty window and one `GetDevices` command sent |
| Gui.MirrorApp.ShowFrame | src/main.rs:301-308 | a texture is allocated only when none is held, and then holds the new frame whatever its size |
| Gui.MirrorApp.RecordArrival | src/main.rs:313-326 | the window becomes the arrival followed by the front trim; the count is its length; it is non-empty, ends with `now`, grows by at most one, and for a monotonic clock stays sorted within `[now - window, now]` |
| Gui.MirrorApp.ApplyFrame | src/main.rs:301-326 | a frame updates exactly the texture and the frame statistics |
| Gui.MirrorApp.Update | src/main.rs:289-335 | at most one event is consumed; each kind replaces exactly its own fields (the placeholder texts for the two failures, the device list, the information rows, the texture and statistics for a frame); an empty channel changes nothing, and is fatal once the worker is gone; the window stays in order and within two seconds of the latest frame's arrival |
| Gui.MirrorApp.PressStart | src/main.rs:410-428 | offered only while a listed device is selected and no stream runs; it sends Start for that device, sets the streaming flag and clears the statistics |
| Gui.MirrorApp.PressStop | src/main.rs:410-437 | offered only while a listed device is selected and a stream runs; it clears the flag and the texture, sends Stop and clears the statistics |
| Gui.MirrorApp.SelectDevice | src/main.rs:358-380 | offered for the names of a received device list; it selects the name, forgets the shown information and asks for that device's, and changes nothing else |
| Gui.MirrorApp.PressRefresh | src/main.rs:397-401 | offered once a device list arrived; it sends `GetDevices` and changes nothing else |

## Left out

- egui rendering: the widgets, the heading, the combo box layout, the logs window and its `show_logs` toggle, and the aspect-ratio fitting of the image. They draw state and decide nothing the model keeps.
- The displayed rate as an `f32` (`len / 2.0`, with its `max(0.000_001)` guard). It is floating point; the model keeps its numerator `fpsCount`.
- The tokio runtime, `spawn`, `abort` and the unbounded channels. Concurrency is not modelled: channels are sequences, a task is a number, and an aborted task is recorded in a ghost set rather than stopped.
- The device library calls: usbmuxd, lockdown, the core device proxy, the software tunnel, the RSD handshake, the remote server and the screenshot client. Their results are given as outcomes, and the `expect`/`unwrap` panics of the connection setup are folded into the `connected` flag of `Capture.ScreenshotTask`.
- PNG decoding and the conversion to a `ColorImage`. A decoded frame is given as an `Image`, a failed decode as `DecodeFailed`.
- The `{:?}` and `{:#?}` renderings of a device-library error. `IdeviceError` carries both as given strings.
- The worker's `guiOpen` is fixed for the whole run. The model cannot express the GUI's end closing part-way through, where earlier sends succeed and the first later one panics; `Dispatcher.Run` covers the two fixed cases only.
- The GUI's own sends end with `unwrap`, which panics once the worker has exited. The model treats these sends as always succeeding.
- `ctx.request_repaint()` and `Instant::now()`. Repaint scheduling is egui's, and the clock is I/O: the arrival time is a parameter of `MirrorApp.Update`.
- `main`'s window options, icon loading, logger setup and `println!`/log output. They have no effect on the state.
