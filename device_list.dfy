/** Device-list assembly for a `GetDevices` request: every usbmuxd device whose
    lockdown query yields a string `DeviceName` is entered into a map keyed by
    that name. */
module DeviceList {
  import opened Wrappers
  import opened PropertyList
  import opened Messages

  /** What the lockdown service answered for one device. */
  datatype Lockdown =
    | LockdownConnectFailed(connectError: IdeviceError)
    | GetValueFailed(valueError: IdeviceError)
    | Values(values: Value)

  /** One listed device together with its lockdown answer. */
  datatype Probe = Probe(device: Device, lockdown: Lockdown)

  /** What usbmuxd answered a `GetDevices` request. */
  datatype Usbmuxd =
    | UsbmuxdUnreachable(connectError: IdeviceError)
    | ListFailed(listError: IdeviceError)
    | Listed(probes: seq<Probe>)

  /** The device's `DeviceName` when its lockdown query succeeded and the name is a string. */
  function NameOf(p: Probe): Option<string>
  {
    match p.lockdown
    case Values(v) => StringAt(v, "DeviceName")
    case _ => None
  }

  /** The map after inserting, in order, every probe that has a name. */
  function Selections(probes: seq<Probe>): map<string, Device>
  {
    if probes == [] then map[]
    else
      var m := Selections(probes[..|probes| - 1]);
      var p := probes[|probes| - 1];
      match NameOf(p)
      case Some(n) => m[n := p.device]
      case None => m
  }

  /** The one event a `GetDevices` request produces. */
  function ListEvent(answer: Usbmuxd): GuiCommand
  {
    match answer
    case UsbmuxdUnreachable(e) => NoUsbmuxd(e)
    case ListFailed(e) => GetDevicesFailure(e)
    case Listed(probes) => Devices(Selections(probes))
  }

  /** The names of all probes that have one. */
  ghost function Names(probes: seq<Probe>): set<string>
  {
    set i | 0 <= i < |probes| && NameOf(probes[i]).Some? :: NameOf(probes[i]).value
  }

  /** Probe `i` has a name and no later probe has the same one. */
  ghost predicate LastNamed(probes: seq<Probe>, i: int)
  {
    0 <= i < |probes| && NameOf(probes[i]).Some? &&
    forall j :: i < j < |probes| ==> NameOf(probes[j]) != NameOf(probes[i])
  }

  /** The map is keyed by exactly the names the probes report. */
  lemma {:induction false} SelectionsKeys(probes: seq<Probe>)
    ensures Selections(probes).Keys == Names(probes)
  {
    if probes != [] {
      var n := |probes| - 1;
      var prefix := probes[..n];
      SelectionsKeys(prefix);
      assert forall i :: 0 <= i < n ==> prefix[i] == probes[i];
      assert Names(probes) == Names(prefix) + (if NameOf(probes[n]).Some? then {NameOf(probes[n]).value} else {});
    }
  }

  /** A name maps to the last probe that reports it: a later duplicate overwrites an earlier one. */
  lemma {:induction false} SelectionsLastWins(probes: seq<Probe>, i: int)
    requires LastNamed(probes, i)
    ensures NameOf(probes[i]).value in Selections(probes)
    ensures Selections(probes)[NameOf(probes[i]).value] == probes[i].device
  {
    var n := |probes| - 1;
    if i < n {
      var prefix := probes[..n];
      assert forall j :: 0 <= j < n ==> prefix[j] == probes[j];
      SelectionsLastWins(prefix, i);
    }
  }

  /** The `for dev in devs` loop that fills the selection map. */
  method BuildSelections(probes: seq<Probe>) returns (selections: map<string, Device>)
    ensures selections.Keys == Names(probes)
    ensures forall i :: LastNamed(probes, i) ==> selections[NameOf(probes[i]).value] == probes[i].device
    ensures selections == Selections(probes)
  {
    selections := map[];
    for i := 0 to |probes|
      invariant selections == Selections(probes[..i])
    {
      assert probes[..i + 1][..i] == probes[..i];
      match probes[i].lockdown {
        case LockdownConnectFailed(_) =>
        case GetValueFailed(_) =>
        case Values(v) =>
          match StringAt(v, "DeviceName") {
            case Some(name) => selections := selections[name := probes[i].device];
            case None =>
          }
      }
    }
    assert probes[..|probes|] == probes;
    SelectionsKeys(probes);
    forall i | LastNamed(probes, i)
      ensures selections[NameOf(probes[i]).value] == probes[i].device
    {
      SelectionsLastWins(probes, i);
    }
  }

  /** A `GetDevices` request: exactly one event, whose kind follows usbmuxd's answer. */
  method ResolveDevices(answer: Usbmuxd) returns (event: GuiCommand)
    ensures event.NoUsbmuxd? <==> answer.UsbmuxdUnreachable?
    ensures event.NoUsbmuxd? ==> event.usbmuxdError == answer.connectError
    ensures event.GetDevicesFailure? <==> answer.ListFailed?
    ensures event.GetDevicesFailure? ==> event.listError == answer.listError
    ensures event.Devices? <==> answer.Listed?
    ensures event.Devices? ==> event.devices.Keys == Names(answer.probes)
    ensures event.Devices? ==> forall i :: LastNamed(answer.probes, i) ==>
              event.devices[NameOf(answer.probes[i]).value] == answer.probes[i].device
    ensures event == ListEvent(answer)
  {
    match answer {
      case UsbmuxdUnreachable(e) => event := NoUsbmuxd(e);
      case ListFailed(e) => event := GetDevicesFailure(e);
      case Listed(probes) =>
        var selections := BuildSelections(probes);
        event := Devices(selections);
    }
  }
}
