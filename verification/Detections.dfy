/**
 The input side of the fusion service: one sensor observation, and the tunables the track
 store is built with. Times are nanoseconds counted from Go's zero time, so the zero value
 of a timestamp is 0. An absent string is the empty string, as in the source.
 */
module Detections {
  import opened Options

  datatype Fix = Fix(lat: real, lon: real, altGeodeticM: Option<real>, heightAglM: Option<real>)

  datatype Kinematics = Kinematics(speedMps: Option<real>, trackDeg: Option<real>)

  datatype OperatorFix = OperatorFix(lat: real, lon: real)

  datatype Detection = Detection(
    ts: int,
    sensorId: string,
    sensorKind: string,
    class_: string,
    rssiDbm: Option<real>,
    serial: string,
    mac: string,
    uaType: string,
    operatorId: string,
    vendorHint: string,
    position: Option<Fix>,
    kinematics: Option<Kinematics>,
    operator: Option<OperatorFix>)

  /** What the terrain resolver answers for the fix at hand: height above ground and the ground used. */
  datatype Ground = Ground(aglM: real, elevationM: real)

  datatype Lifecycle = Lifecycle(
    confirmMinDetections: int,
    confirmMinSpan: int,
    coastAfter: int,
    closeAfter: int,
    resumeWithin: int,
    historyDepth: int,
    historyMinMoveM: real,
    historyMinInterval: int)

  /** `dist` stands for the equirectangular distance between two (lat, lon) pairs. */
  datatype Config = Config(
    lifecycle: Lifecycle,
    weights: map<string, real>,
    dist: (real, real, real, real) -> real)
  {
    function Weight(class_: string): real {
      if class_ in weights then weights[class_] else 0.0
    }
  }

  const CLASS_ADSB := "D"
  const CORROBORATING_ONLY: set<string> := {"C", "D", "H"}
  const RESUME_MIN_CLIMB_M := 40.0
  const RESUME_MIN_RANGE_M := 200.0
}
