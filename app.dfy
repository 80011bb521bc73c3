/** The GUI side: the application state that each repaint updates from at most one
    worker event, the frame-arrival statistics, the screenshot texture, and the
    state effects of the Start, Stop, device-selection and refresh clicks. */
module Gui {
  import opened Wrappers
  import opened Messages
  import opened FrameWindow
  import opened Dispatch

  /** The screenshot texture: the image it holds, if one is allocated, and how many
      textures `load_texture` has allocated so far. */
  datatype TextureSlot = TextureSlot(held: Option<Image>, allocations: nat)

  /** Showing a decoded frame: allocate a texture only when none is held, then
      overwrite its contents with the frame, whatever its size. */
  function Present(slot: TextureSlot, image: Image): TextureSlot
  {
    var ready := if slot.held.None? then TextureSlot(Some(image), slot.allocations + 1) else slot;
    ready.(held := Some(image))
  }

  /** Showing a series of frames, oldest first. */
  function PresentAll(slot: TextureSlot, images: seq<Image>): TextureSlot
  {
    if images == [] then slot
    else Present(PresentAll(slot, images[..|images| - 1]), images[|images| - 1])
  }

  /** A held texture is reused for every further frame, whatever the frames' sizes:
      no allocation happens, and the texture ends up holding the latest frame. */
  lemma {:induction false} HeldTextureIsReused(slot: TextureSlot, images: seq<Image>)
    requires slot.held.Some?
    ensures PresentAll(slot, images).allocations == slot.allocations
    ensures PresentAll(slot, images).held == if images == [] then slot.held else Some(images[|images| - 1])
  {
    if images != [] {
      HeldTextureIsReused(slot, images[..|images| - 1]);
    }
  }

  /** From no texture, a stream of frames allocates exactly one texture, even when
      the frames change size, and the texture holds the latest frame. */
  lemma {:induction false} OneAllocationPerStream(slot: TextureSlot, images: seq<Image>)
    requires slot.held.None?
    requires images != []
    ensures PresentAll(slot, images).allocations == slot.allocations + 1
    ensures PresentAll(slot, images).held == Some(images[|images| - 1])
  {
    var n := |images| - 1;
    if n == 0 {
      assert images[..n] == [];
    } else {
      OneAllocationPerStream(slot, images[..n]);
    }
  }

  /** What one repaint did with the event channel: found nothing, applied an event,
      or found it empty with the worker gone (a panic). */
  datatype Outcome = Idle | Applied | Panicked

  /** A snapshot of every field of the application. */
  datatype AppState = AppState(
    devices: Option<map<string, Device>>,
    devicesPlaceholder: string,
    selectedDevice: string,
    deviceInfo: Option<seq<InfoEntry>>,
    isStreaming: bool,
    texture: TextureSlot,
    frameTimes: seq<int>,
    fpsCount: nat,
    inbox: seq<GuiCommand>,
    senderAlive: bool,
    outbox: seq<IdeviceCommand>)

  /** Sending one more command keeps "no Start while a stream is requested", provided
      a Start is sent only while no stream is requested; a Start requests a stream,
      a Stop ends the request, and the other commands leave it as it was. */
  lemma SendKeepsNoDoubleStart(outbox: seq<IdeviceCommand>, c: IdeviceCommand)
    requires NoDoubleStart(outbox)
    requires c.StartScreenshotStream? ==> !StreamRequested(outbox)
    ensures NoDoubleStart(outbox + [c])
    ensures StreamRequested(outbox + [c]) ==
              match c
              case StartScreenshotStream(_) => true
              case StopScreenshotStream => false
              case _ => StreamRequested(outbox)
  {
    var s := outbox + [c];
    assert s[..|outbox|] == outbox;
    forall i | 0 <= i < |outbox|
      ensures s[..i] == outbox[..i]
    {
    }
  }

  class MirrorApp {
    /** The device list, once one arrived. */
    var devices: Option<map<string, Device>>
    /** The text shown while there is no device list. */
    var devicesPlaceholder: string
    var selectedDevice: string
    var deviceInfo: Option<seq<InfoEntry>>
    var isStreaming: bool
    var texture: TextureSlot
    /** Arrival times of the frames in the statistics window, oldest first, in nanoseconds. */
    var frameTimes: seq<int>
    /** The numerator of the displayed rate: frames per `fpsWindow`. */
    var fpsCount: nat
    const fpsWindow: nat
    /** Events from the worker not yet received, oldest first. */
    var inbox: seq<GuiCommand>
    /** Whether the worker still holds its sending end of the event channel. */
    var senderAlive: bool
    /** Every command sent to the worker, oldest first. */
    var outbox: seq<IdeviceCommand>
    /** The latest reading of the monotonic clock: the start time, then each frame's arrival. */
    ghost var clock: int

    ghost function State(): AppState
      reads this
    {
      AppState(devices, devicesPlaceholder, selectedDevice, deviceInfo, isStreaming,
               texture, frameTimes, fpsCount, inbox, senderAlive, outbox)
    }

    /** The rate shown is the length of the window, whose timestamps are in order and
        within `fpsWindow` of the latest clock reading; a texture is only held once one
        was allocated; and the streaming flag agrees with the commands sent: it is set
        exactly when the last Start or Stop sent is a Start, and no Start is ever sent
        while a stream is requested. */
    ghost predicate Valid()
      reads this
    {
      fpsCount == |frameTimes| &&
      Sorted(frameTimes) &&
      (forall i :: 0 <= i < |frameTimes| ==> clock - fpsWindow <= frameTimes[i] <= clock) &&
      (texture.held.Some? ==> texture.allocations > 0) &&
      NoDoubleStart(outbox) &&
      (isStreaming <==> StreamRequested(outbox))
    }

    /** The application as it starts, after the initial device-list request. */
    constructor (events: seq<GuiCommand>, alive: bool, ghost startTime: int)
      ensures Valid()
      ensures clock == startTime
      ensures State() == AppState(None, "Loading...", "", None, false, TextureSlot(None, 0),
                                  [], 0, events, alive, [GetDevices])
      ensures fpsWindow == FpsWindow
    {
      devices := None;
      devicesPlaceholder := "Loading...";
      selectedDevice := "";
      deviceInfo := None;
      isStreaming := false;
      texture := TextureSlot(None, 0);
      frameTimes := [];
      fpsCount := 0;
      fpsWindow := FpsWindow;
      inbox := events;
      senderAlive := alive;
      outbox := [GetDevices];
      clock := startTime;
    }

    /** The texture update of a `NewScreenshot` event. */
    method ShowFrame(image: Image)
      modifies this`texture
      ensures texture == Present(old(texture), image)
      ensures texture.held == Some(image)
      ensures texture.allocations == old(texture.allocations) + (if old(texture.held).None? then 1 else 0)
    {
      if texture.held.None? {
        texture := TextureSlot(Some(image), texture.allocations + 1);
      }
      texture := texture.(held := Some(image));
    }

    /** The statistics update of a `NewScreenshot` event arriving at `now`. */
    method RecordArrival(now: int)
      modifies this`frameTimes, this`fpsCount
      ensures frameTimes == Arrive(old(frameTimes), now, fpsWindow)
      ensures fpsCount == |frameTimes|
      ensures 0 < |frameTimes| <= |old(frameTimes)| + 1
      ensures frameTimes == (old(frameTimes) + [now])[|old(frameTimes)| + 1 - |frameTimes|..]
      ensures frameTimes[|frameTimes| - 1] == now
      ensures Sorted(old(frameTimes)) && (forall i :: 0 <= i < |old(frameTimes)| ==> old(frameTimes)[i] <= now) ==>
                Sorted(frameTimes) && forall i :: 0 <= i < |frameTimes| ==> now - fpsWindow <= frameTimes[i] <= now
    {
      ghost var before := frameTimes;
      frameTimes := frameTimes + [now];
      var cutoff := now - fpsWindow;
      while frameTimes != [] && frameTimes[0] < cutoff
        invariant Evict(frameTimes, cutoff) == Arrive(before, now, fpsWindow)
        decreases |frameTimes|
      {
        frameTimes := frameTimes[1..];
      }
      fpsCount := |frameTimes|;
      ArriveRetainsNow(before, now, fpsWindow);
      if Sorted(before) && forall i :: 0 <= i < |before| ==> before[i] <= now {
        ArriveWithinWindow(before, now, fpsWindow);
      }
    }

    /** A `NewScreenshot` event arriving at `now`: the texture shows it and the
        statistics count it. */
    method ApplyFrame(image: Image, now: int)
      requires Valid()
      requires clock <= now
      modifies this`texture, this`frameTimes, this`fpsCount, this`clock
      ensures Valid()
      ensures clock == now
      ensures State() == old(State()).(texture := Present(old(texture), image),
                                       frameTimes := Arrive(old(frameTimes), now, fpsWindow),
                                       fpsCount := |Arrive(old(frameTimes), now, fpsWindow)|)
    {
      ShowFrame(image);
      RecordArrival(now);
      clock := now;
    }

    /** One repaint's `try_recv`: an event is taken and applied when one is waiting;
        otherwise nothing changes, and a worker that is gone is fatal. */
    method Update(now: int) returns (outcome: Outcome)
      requires Valid()
      requires clock <= now
      modifies this
      ensures Valid()
      ensures clock == if old(inbox) != [] && old(inbox)[0].NewScreenshot? then now else old(clock)
      ensures old(inbox) == [] ==> State() == old(State())
      ensures old(inbox) == [] ==> outcome == if old(senderAlive) then Idle else Panicked
      ensures old(inbox) != [] ==> outcome == Applied
      ensures old(inbox) != [] ==>
                var rest := old(State()).(inbox := old(inbox)[1..]);
                match old(inbox)[0]
                case NoUsbmuxd(e) =>
                  State() == rest.(devicesPlaceholder := "Failed to connect to usbmuxd!\n\n" + e.prettyDebug)
                case GetDevicesFailure(e) =>
                  State() == rest.(devicesPlaceholder := "Failed to get devices!\n\n" + e.debug)
                case Devices(m) => State() == rest.(devices := Some(m))
                case DeviceInfo(info) => State() == rest.(deviceInfo := Some(info))
                case NewScreenshot(image) =>
                  var times := Arrive(old(frameTimes), now, fpsWindow);
                  State() == rest.(texture := Present(old(texture), image), frameTimes := times, fpsCount := |times|)
    {
      if inbox == [] {
        outcome := if senderAlive then Idle else Panicked;
        return;
      }
      var event := inbox[0];
      inbox := inbox[1..];
      match event {
        case NoUsbmuxd(e) =>
          devicesPlaceholder := "Failed to connect to usbmuxd!\n\n" + e.prettyDebug;
        case Devices(m) =>
          devices := Some(m);
        case DeviceInfo(info) =>
          deviceInfo := Some(info);
        case GetDevicesFailure(e) =>
          devicesPlaceholder := "Failed to get devices!\n\n" + e.debug;
        case NewScreenshot(image) =>
          ApplyFrame(image, now);
      }
      outcome := Applied;
    }

    /** Whether the Start/Stop row is shown: a device list holds the selected device. */
    predicate SelectionPresent()
      reads this
    {
      devices.Some? && selectedDevice in devices.value
    }

    /** The "Start Streaming" button, shown while a listed device is selected and no
        stream runs: it asks for a stream from that device and resets the statistics. */
    method PressStart() returns (shown: bool)
      requires Valid()
      modifies this`outbox, this`isStreaming, this`frameTimes, this`fpsCount
      ensures Valid()
      ensures shown == (old(SelectionPresent()) && !old(isStreaming))
      ensures shown ==> outbox == old(outbox) + [StartScreenshotStream(devices.value[selectedDevice])]
      ensures shown ==> isStreaming && frameTimes == [] && fpsCount == 0
      ensures !shown ==> State() == old(State())
    {
      shown := SelectionPresent() && !isStreaming;
      if shown {
        SendKeepsNoDoubleStart(outbox, StartScreenshotStream(devices.value[selectedDevice]));
        outbox := outbox + [StartScreenshotStream(devices.value[selectedDevice])];
        isStreaming := true;
        frameTimes := [];
        fpsCount := 0;
      }
    }

    /** The "Stop Streaming" button, shown while a listed device is selected and a
        stream runs: it drops the texture, asks for the stream to stop and clears the
        statistics. */
    method PressStop() returns (shown: bool)
      requires Valid()
      modifies this`outbox, this`isStreaming, this`texture, this`frameTimes, this`fpsCount
      ensures Valid()
      ensures shown == (old(SelectionPresent()) && old(isStreaming))
      ensures shown ==> outbox == old(outbox) + [StopScreenshotStream]
      ensures shown ==> !isStreaming && texture == old(texture).(held := None) && frameTimes == [] && fpsCount == 0
      ensures !shown ==> State() == old(State())
    {
      shown := SelectionPresent() && isStreaming;
      if shown {
        isStreaming := false;
        texture := texture.(held := None);
        SendKeepsNoDoubleStart(outbox, StopScreenshotStream);
        outbox := outbox + [StopScreenshotStream];
        frameTimes := [];
        fpsCount := 0;
      }
    }

    /** Clicking `name` in the device box, offered once a device list arrived and
        for the names in it: select it, forget the shown information and ask for
        that device's. */
    method SelectDevice(name: string) returns (shown: bool)
      requires Valid()
      modifies this`selectedDevice, this`deviceInfo, this`outbox
      ensures Valid()
      ensures shown == (old(devices).Some? && name in old(devices).value)
      ensures shown ==> State() == old(State()).(selectedDevice := name, deviceInfo := None,
                                                 outbox := old(outbox) + [GetDeviceInfo(devices.value[name])])
      ensures !shown ==> State() == old(State())
    {
      shown := devices.Some? && name in devices.value;
      if shown {
        selectedDevice := name;
        deviceInfo := None;
        SendKeepsNoDoubleStart(outbox, GetDeviceInfo(devices.value[name]));
        outbox := outbox + [GetDeviceInfo(devices.value[name])];
      }
    }

    /** The "Refresh Devices" button, shown once a device list arrived: it asks for
        a new list and changes nothing else. */
    method PressRefresh() returns (shown: bool)
      requires Valid()
      modifies this`outbox
      ensures Valid()
      ensures shown == old(devices).Some?
      ensures State() == old(State()).(outbox := old(outbox) + if shown then [GetDevices] else [])
    {
      shown := devices.Some?;
      if shown {
        SendKeepsNoDoubleStart(outbox, GetDevices);
        outbox := outbox + [GetDevices];
      }
    }
  }
}
