/** The decoded controller report of `vita_reports` and the events the protocol layer hands out. */
module Reports {
  import opened Bytes

  datatype Option<+T> = None | Some(value: T)

  type u8 = Bytes.byte

  datatype ButtonsData = ButtonsData(
    select: bool, start: bool, up: bool, right: bool, down: bool, left: bool, lt: bool, rt: bool,
    triangle: bool, circle: bool, cross: bool, square: bool, volUp: bool, volDown: bool, ps: bool)

  datatype TouchReport = TouchReport(x: u16, y: u16, id: u8, force: u8)

  datatype Vector3 = Vector3(x: real, y: real, z: real)

  datatype MotionData = MotionData(gyro: Vector3, accelerometer: Vector3)

  datatype MainReport = MainReport(
    buttons: ButtonsData, lx: u8, ly: u8, rx: u8, ry: u8,
    frontTouch: seq<TouchReport>, backTouch: seq<TouchReport>,
    motion: MotionData, timestamp: u64, chargePercent: u8)

  datatype Endpoint = ClientEnd | ServerEnd

  datatype Handshake = Handshake(endpoint: Endpoint, port: u16, heartbeatFreq: u32)

  datatype Event =
    | HandshakeResponseReceived(handshake: Handshake)
    | HeartbeatReceived
    | PadDataReceived(data: MainReport)
}
