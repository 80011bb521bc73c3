/** The device worker: a loop that takes one command at a time from the GUI,
    answers device queries with events, and keeps the handle of at most one
    screenshot task, which Start overwrites and Stop takes and aborts. */
module Dispatch {
  import opened Wrappers
  import opened Messages
  import opened DeviceInfo
  import opened DeviceList

  /** A spawned screenshot task, identified by its join handle. */
  type TaskHandle = nat

  /** One command with the device library's answers while it is handled: usbmuxd's
      for `GetDevices`, lockdown's for `GetDeviceInfo`. */
  datatype Step = Step(command: IdeviceCommand, usbmuxd: Usbmuxd, lockdown: Lockdown)

  /** The worker's state when `Dispatcher.Run` begins, as far as its loop needs it. */
  datatype Start = Start(events0: seq<GuiCommand>, startedIdle: bool, guarded: bool,
                         orphaned0: set<TaskHandle>, aborted0: set<TaskHandle>, next0: nat)

  /** Whether the worker is still looping or has panicked on a failed send. */
  datatype Status = Running | Crashed

  /** The event a `GetDeviceInfo` request produces; none when lockdown fails. */
  function InfoEvent(answer: Lockdown): Option<GuiCommand>
  {
    match answer
    case Values(v) => Some(GuiCommand.DeviceInfo(InfoOf(v, Fields)))
    case _ => None
  }

  /** The events one command produces. */
  function StepEvents(step: Step): seq<GuiCommand>
  {
    match step.command
    case GetDevices => [ListEvent(step.usbmuxd)]
    case GetDeviceInfo(_) =>
      (match InfoEvent(step.lockdown)
       case Some(e) => [e]
       case None => [])
    case _ => []
  }

  /** The events a series of commands produces, in order. */
  function ScriptEvents(script: seq<Step>): seq<GuiCommand>
  {
    if script == [] then []
    else ScriptEvents(script[..|script| - 1]) + StepEvents(script[|script| - 1])
  }

  function Commands(script: seq<Step>): seq<IdeviceCommand>
  {
    seq(|script|, i requires 0 <= i < |script| => script[i].command)
  }

  /** Whether the last Start or Stop among `commands` is a Start. */
  predicate StreamRequested(commands: seq<IdeviceCommand>)
  {
    if commands == [] then false
    else
      match commands[|commands| - 1]
      case StartScreenshotStream(_) => true
      case StopScreenshotStream => false
      case _ => StreamRequested(commands[..|commands| - 1])
  }

  /** No Start is sent while a stream is already requested. */
  ghost predicate NoDoubleStart(commands: seq<IdeviceCommand>)
  {
    forall i :: 0 <= i < |commands| && commands[i].StartScreenshotStream? ==>
      !StreamRequested(commands[..i])
  }

  /** The answer to a device-list request. */
  predicate IsListEvent(e: GuiCommand)
  {
    e.NoUsbmuxd? || e.GetDevicesFailure? || e.Devices?
  }

  function CountListEvents(events: seq<GuiCommand>): nat
  {
    if events == [] then 0
    else CountListEvents(events[..|events| - 1]) + (if IsListEvent(events[|events| - 1]) then 1 else 0)
  }

  function CountGetDevices(script: seq<Step>): nat
  {
    if script == [] then 0
    else CountGetDevices(script[..|script| - 1]) + (if script[|script| - 1].command.GetDevices? then 1 else 0)
  }

  lemma {:induction false} CountListEventsConcat(a: seq<GuiCommand>, b: seq<GuiCommand>)
    ensures CountListEvents(a + b) == CountListEvents(a) + CountListEvents(b)
  {
    if b == [] {
      assert a + b == a;
    } else {
      var n := |b| - 1;
      assert (a + b)[..|a + b| - 1] == a + b[..n];
      CountListEventsConcat(a, b[..n]);
    }
  }

  /** Every `GetDevices` request is answered by exactly one device-list event
      (NoUsbmuxd, GetDevicesFailure or Devices), and no other command produces one. */
  lemma {:induction false} OneListEventPerRequest(script: seq<Step>)
    ensures CountListEvents(ScriptEvents(script)) == CountGetDevices(script)
  {
    if script != [] {
      var n := |script| - 1;
      OneListEventPerRequest(script[..n]);
      CountListEventsConcat(ScriptEvents(script[..n]), StepEvents(script[n]));
      var events := StepEvents(script[n]);
      assert events != [] ==> events[..0] == [];
    }
  }

  lemma ScriptEventsStep(script: seq<Step>, i: nat)
    requires i < |script|
    ensures ScriptEvents(script[..i + 1]) == ScriptEvents(script[..i]) + StepEvents(script[i])
  {
    assert script[..i + 1][..i] == script[..i];
  }

  /** No command of `script` produces an event. */
  ghost predicate Silent(script: seq<Step>)
  {
    forall i :: 0 <= i < |script| ==> StepEvents(script[i]) == []
  }

  lemma SilentStep(script: seq<Step>, i: nat)
    requires i < |script|
    ensures Silent(script[..i + 1]) <==> Silent(script[..i]) && StepEvents(script[i]) == []
  {
    assert script[..i + 1][i] == script[i];
    assert forall k :: 0 <= k < i ==> script[..i + 1][k] == script[..i][k];
  }

  lemma SilentPrefix(script: seq<Step>, n: nat)
    requires n <= |script|
    requires !Silent(script[..n])
    ensures !Silent(script)
  {
    var i :| 0 <= i < n && StepEvents(script[..n][i]) != [];
    assert script[..n][i] == script[i];
  }

  lemma StreamRequestedStep(script: seq<Step>, i: nat)
    requires i < |script|
    ensures StreamRequested(Commands(script[..i + 1])) ==
              match script[i].command
              case StartScreenshotStream(_) => true
              case StopScreenshotStream => false
              case _ => StreamRequested(Commands(script[..i]))
  {
    assert Commands(script[..i + 1])[..i] == Commands(script[..i]);
  }

  lemma NoDoubleStartAt(script: seq<Step>, i: nat)
    requires i < |script|
    requires NoDoubleStart(Commands(script))
    requires script[i].command.StartScreenshotStream?
    ensures !StreamRequested(Commands(script[..i]))
  {
    assert Commands(script)[..i] == Commands(script[..i]);
  }

  /** The recorded handle after `command`, given the recorded one and the next spawn's. */
  function SlotAfter(slot: Option<TaskHandle>, next: TaskHandle, command: IdeviceCommand): Option<TaskHandle>
  {
    match command
    case StartScreenshotStream(_) => Some(next)
    case StopScreenshotStream => None
    case _ => slot
  }

  /** The handle that `command` overwrites without aborting it. */
  function Overwritten(slot: Option<TaskHandle>, command: IdeviceCommand): set<TaskHandle>
  {
    if command.StartScreenshotStream? && slot.Some? then {slot.value} else {}
  }

  /** The handle that `command` takes out of the slot and aborts. */
  function Taken(slot: Option<TaskHandle>, command: IdeviceCommand): set<TaskHandle>
  {
    if command.StopScreenshotStream? && slot.Some? then {slot.value} else {}
  }

  class Dispatcher {
    /** `screenshot_task`: the handle of the last started screenshot task, if any. */
    var screenshotTask: Option<TaskHandle>
    /** The handle the next spawn returns. */
    var nextTask: nat
    /** Events sent to the GUI, oldest first. */
    var guiEvents: seq<GuiCommand>
    /** Whether the GUI end of the event channel is open. */
    const guiOpen: bool
    /** The device each spawned task streams from. */
    ghost var sessions: map<TaskHandle, Device>
    /** Tasks that Stop aborted. */
    ghost var aborted: set<TaskHandle>
    /** Tasks whose handle Start overwrote while they were still recorded. */
    ghost var orphaned: set<TaskHandle>

    ghost predicate Valid()
      reads this
    {
      (forall h :: h in sessions <==> 0 <= h < nextTask) &&
      aborted <= sessions.Keys && orphaned <= sessions.Keys &&
      (screenshotTask.Some? ==>
        screenshotTask.value < nextTask &&
        screenshotTask.value !in aborted && screenshotTask.value !in orphaned)
    }

    constructor (guiOpen: bool)
      ensures Valid()
      ensures screenshotTask == None && nextTask == 0 && guiEvents == []
      ensures this.guiOpen == guiOpen
      ensures sessions == map[] && aborted == {} && orphaned == {}
    {
      screenshotTask := None;
      nextTask := 0;
      guiEvents := [];
      this.guiOpen := guiOpen;
      sessions := map[];
      aborted := {};
      orphaned := {};
    }

    /** `gui_sender.send(e).unwrap()`: fails, and the caller panics, once the GUI is gone. */
    method Send(e: GuiCommand) returns (status: Status)
      modifies this`guiEvents
      ensures status == if guiOpen then Running else Crashed
      ensures guiEvents == if guiOpen then old(guiEvents) + [e] else old(guiEvents)
    {
      if guiOpen {
        guiEvents := guiEvents + [e];
        status := Running;
      } else {
        status := Crashed;
      }
    }

    /** `GetDevices`: exactly one event. */
    method HandleGetDevices(answer: Usbmuxd) returns (status: Status)
      modifies this`guiEvents
      ensures status == if guiOpen then Running else Crashed
      ensures guiEvents == if guiOpen then old(guiEvents) + [ListEvent(answer)] else old(guiEvents)
    {
      var event := ResolveDevices(answer);
      status := Send(event);
    }

    /** `GetDeviceInfo`: one event when lockdown answers, none (only a log line) otherwise. */
    method HandleGetDeviceInfo(device: Device, answer: Lockdown) returns (status: Status)
      modifies this`guiEvents
      ensures status == if !guiOpen && InfoEvent(answer).Some? then Crashed else Running
      ensures guiEvents == old(guiEvents) +
                (if guiOpen && InfoEvent(answer).Some? then [InfoEvent(answer).value] else [])
    {
      match answer {
        case LockdownConnectFailed(_) => status := Running;
        case GetValueFailed(_) => status := Running;
        case Values(values) =>
          var info := ExtractDeviceInfo(values);
          status := Send(GuiCommand.DeviceInfo(info));
      }
    }

    /** `StartScreenshotStream`: spawn a task and record its handle, overwriting
        (and neither aborting nor awaiting) whatever handle was recorded. */
    method HandleStart(device: Device)
      requires Valid()
      modifies this`screenshotTask, this`nextTask, this`sessions, this`orphaned
      ensures Valid()
      ensures screenshotTask == Some(old(nextTask)) && nextTask == old(nextTask) + 1
      ensures sessions == old(sessions)[old(nextTask) := device]
      ensures orphaned == old(orphaned) +
                (if old(screenshotTask).Some? then {old(screenshotTask).value} else {})
    {
      if screenshotTask.Some? {
        orphaned := orphaned + {screenshotTask.value};
      }
      sessions := sessions[nextTask := device];
      screenshotTask := Some(nextTask);
      nextTask := nextTask + 1;
    }

    /** `StopScreenshotStream`: take the recorded handle and abort it; nothing else when none is recorded. */
    method HandleStop()
      requires Valid()
      modifies this`screenshotTask, this`aborted
      ensures Valid()
      ensures screenshotTask == None
      ensures aborted == old(aborted) +
                (if old(screenshotTask).Some? then {old(screenshotTask).value} else {})
    {
      var task := screenshotTask;
      screenshotTask := None;
      if task.Some? {
        aborted := aborted + {task.value};
      }
    }

    /** One turn of the `while let Some(command)` loop. */
    method Handle(step: Step) returns (status: Status)
      requires Valid()
      modifies this
      ensures Valid()
      ensures status == if !guiOpen && StepEvents(step) != [] then Crashed else Running
      ensures guiEvents == old(guiEvents) + (if guiOpen then StepEvents(step) else [])
      ensures screenshotTask == SlotAfter(old(screenshotTask), old(nextTask), step.command)
      ensures orphaned == old(orphaned) + Overwritten(old(screenshotTask), step.command)
      ensures aborted == old(aborted) + Taken(old(screenshotTask), step.command)
      ensures nextTask == old(nextTask) + (if step.command.StartScreenshotStream? then 1 else 0)
      ensures sessions == if step.command.StartScreenshotStream?
                          then old(sessions)[old(nextTask) := step.command.streamDevice]
                          else old(sessions)
    {
      match step.command {
        case GetDevices =>
          status := HandleGetDevices(step.usbmuxd);
        case GetDeviceInfo(device) =>
          status := HandleGetDeviceInfo(device, step.lockdown);
        case StartScreenshotStream(device) =>
          HandleStart(device);
          status := Running;
        case StopScreenshotStream =>
          HandleStop();
          status := Running;
      }
    }

    /** What the worker loop keeps after the first `n` commands of `script`, given the
        state before it: the events sent, whether no task was recorded, whether the
        commands never start twice in a row, the orphaned and aborted tasks and the
        next handle. Every task spawned since is aborted, orphaned or recorded. */
    ghost predicate Progress(script: seq<Step>, n: nat, start: Start)
      reads this
    {
      var Start(events0, startedIdle, guarded, orphaned0, aborted0, next0) := start;
      Valid() && n <= |script| &&
      aborted0 <= aborted && next0 <= nextTask &&
      (forall h :: next0 <= h < nextTask ==> h in aborted || h in orphaned || screenshotTask == Some(h)) &&
      guiEvents == events0 + (if guiOpen then ScriptEvents(script[..n]) else []) &&
      (!guiOpen ==> Silent(script[..n])) &&
      (startedIdle ==> (screenshotTask.Some? <==> StreamRequested(Commands(script[..n])))) &&
      (guarded ==> orphaned == orphaned0)
    }

    /** One turn of the worker loop inside `Run`. */
    method Advance(script: seq<Step>, n: nat, ghost start: Start) returns (status: Status)
      requires n < |script|
      requires Progress(script, n, start)
      requires start.guarded ==> start.startedIdle && NoDoubleStart(Commands(script))
      modifies this
      ensures status == Crashed ==> !guiOpen && StepEvents(script[n]) != []
      ensures status == Running ==> Progress(script, n + 1, start)
      ensures status == Crashed ==> Progress(script, n, start) && !Silent(script[..n + 1])
    {
      ScriptEventsStep(script, n);
      StreamRequestedStep(script, n);
      SilentStep(script, n);
      if start.guarded && script[n].command.StartScreenshotStream? {
        NoDoubleStartAt(script, n);
      }
      status := Handle(script[n]);
    }

    /** The worker loop over a series of commands; it stops early when a send panics.
        `handled` counts the commands completed before that. */
    method Run(script: seq<Step>) returns (handled: nat, status: Status)
      requires Valid()
      modifies this
      ensures Valid()
      ensures handled <= |script|
      ensures status == Crashed <==> handled < |script|
      ensures guiOpen ==> status == Running && guiEvents == old(guiEvents) + ScriptEvents(script)
      ensures !guiOpen ==> guiEvents == old(guiEvents)
      ensures !guiOpen ==> (status == Crashed <==> !Silent(script))
      ensures old(screenshotTask).None? ==>
                (screenshotTask.Some? <==> StreamRequested(Commands(script[..handled])))
      ensures status == Crashed ==> Silent(script[..handled]) && StepEvents(script[handled]) != []
      ensures old(screenshotTask).None? ==>
                (screenshotTask.Some? <==> StreamRequested(Commands(script[..handled])))
      ensures old(screenshotTask).None? && NoDoubleStart(Commands(script)) ==> orphaned == old(orphaned)
      ensures old(aborted) <= aborted
      ensures forall h :: old(nextTask) <= h < nextTask ==>
                h in aborted || h in orphaned || screenshotTask == Some(h)
      ensures old(screenshotTask).None? && NoDoubleStart(Commands(script)) ==>
                forall h :: old(nextTask) <= h < nextTask ==> h in aborted || screenshotTask == Some(h)
    {
      handled, status := 0, Running;
      ghost var start := Start(guiEvents, screenshotTask.None?,
                               screenshotTask.None? && NoDoubleStart(Commands(script)),
                               orphaned, aborted, nextTask);
      while handled < |script|
        invariant status == Running
        invariant Progress(script, handled, start)
      {
        var s := Advance(script, handled, start);
        if s == Crashed {
          status := Crashed;
          SilentPrefix(script, handled + 1);
          break;
        }
        handled := handled + 1;
      }
      assert script[..|script|] == script;
    }
  }
}
