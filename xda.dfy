/** Value types standing for the objects of the vendor device API. Only the
    parts the control logic inspects are kept. */
module Xda {

  /** What `XsDeviceId.isWirelessMaster()` / `isMtw()` report. */
  datatype DeviceRole = WirelessMasterRole | MtwRole | OtherRole

  /** An `XsDeviceId`: an opaque serial together with the role it encodes. */
  datatype DeviceId = DeviceId(serial: nat, role: DeviceRole)
  {
    predicate IsWirelessMaster() { role == WirelessMasterRole }
    predicate IsMtw() { role == MtwRole }
  }

  /** An `XsDevice` handle, identified by its device id. */
  datatype Device = Device(id: DeviceId)

  /** An `XsPortInfo` returned by the port scan. */
  datatype PortInfo = PortInfo(portName: string, baudrate: int, deviceId: DeviceId)

  /** Roll, pitch and yaw of one sample; floating point in the device API,
      kept opaque here (no arithmetic is done on them). */
  datatype Euler = Euler(roll: real, pitch: real, yaw: real)

  /** One live data packet; immutable once delivered. The packet counter
      the device stamps on it tells apart packets that carry the same
      orientation, so the FIFO lemmas speak about packets and not only
      about their values. */
  datatype Packet = Packet(sampleCounter: nat, orientation: Euler)
}
