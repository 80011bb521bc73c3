/** The entities exchanged between the GUI and the device worker. */
module Messages {
  /** An attached device as usbmuxd lists it; the core only passes it around. */
  datatype Device = Device(deviceId: nat, serial: string)

  /** An error from the device library, with its `{:?}` and `{:#?}` renderings. */
  datatype IdeviceError = IdeviceError(debug: string, prettyDebug: string)

  datatype Rgba = Rgba(r: bv8, g: bv8, b: bv8, a: bv8)

  /** A decoded screenshot: its size and its unmultiplied RGBA pixels. */
  datatype Image = Image(width: nat, height: nat, pixels: seq<Rgba>)

  /** One (label, value) row of the device-information panel. */
  datatype InfoEntry = InfoEntry(name: string, value: string)

  /** Events the device worker sends to the GUI. */
  datatype GuiCommand =
    | NoUsbmuxd(usbmuxdError: IdeviceError)
    | GetDevicesFailure(listError: IdeviceError)
    | Devices(devices: map<string, Device>)
    | DeviceInfo(info: seq<InfoEntry>)
    | NewScreenshot(image: Image)

  /** Requests the GUI sends to the device worker. */
  datatype IdeviceCommand =
    | GetDevices
    | GetDeviceInfo(infoDevice: Device)
    | StartScreenshotStream(streamDevice: Device)
    | StopScreenshotStream
}
