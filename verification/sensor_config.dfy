/** The per-sensor lookup tables of src/main.py: `get_UL`, `get_LL` and
    `get_max_time`. Each looks up the sensor type of the window's oldest
    reading.

    In the source every table is a run of independent `if` statements that
    assign a local variable. For an unknown sensor type `get_UL` and `get_LL`
    reach `return` with the variable never assigned and raise; here that is
    the explicit error `UnknownSensorType`. `get_max_time` starts from a
    default of 30 minutes, so it answers for every type.
 */
module SensorConfig {
  import opened Wrappers
  import opened DataPoints
  import opened SlidingWindow

  /** Limits of one sensor type: the range check's upper and lower limit and
      the longest time, in seconds, a value may stay unchanged. */
  datatype SensorSpec = SensorSpec(upper: real, lower: real, maxStagnant: int)

  datatype ConfigError = UnknownSensorType(sensorType: string)

  const ThirtyMinutes: int := 30 * 60

  /** The seven sensor kinds; temperature has two names. */
  const KnownSensorTypes: set<string> := {
    "Pvoltage_sensor", "Bvoltage_sensor", "SSTEMP_sensor", "TEMP_sensor",
    "illuminance_sensor", "SSHUM_sensor", "PH_sensor", "WINDDIR_sensor"
  }

  /** The branches of the three lookups, side by side. */
  function Spec(t: string): Option<SensorSpec>
  {
    if t == "Pvoltage_sensor" then Some(SensorSpec(50.0, -0.00000001, ThirtyMinutes))
    else if t == "Bvoltage_sensor" then Some(SensorSpec(50.0, -0.00000001, ThirtyMinutes))
    else if t == "SSTEMP_sensor" || t == "TEMP_sensor" then Some(SensorSpec(45.0, -10.0, ThirtyMinutes))
    else if t == "illuminance_sensor" then Some(SensorSpec(130000.0, -0.00000001, ThirtyMinutes))
    else if t == "SSHUM_sensor" then Some(SensorSpec(85.0, 10.0, ThirtyMinutes))
    else if t == "PH_sensor" then Some(SensorSpec(50.0, -20.0, ThirtyMinutes))
    else if t == "WINDDIR_sensor" then Some(SensorSpec(360.0, 0.0, ThirtyMinutes))
    else None
  }

  /** `get_UL`: the upper limit for the window's sensor type, or an error for
      an unknown type. */
  function GetUL(w: Window<Reading>): (r: Result<real, ConfigError>)
    requires |w.entries| > 0
    ensures r.Success? <==> SensorType(w) in KnownSensorTypes
    ensures r.Failure? ==> r.error == UnknownSensorType(SensorType(w))
    ensures r.Success? ==> Spec(SensorType(w)).Some? && r.value == Spec(SensorType(w)).value.upper
  {
    match Spec(SensorType(w))
    case Some(spec) => Success(spec.upper)
    case None => Failure(UnknownSensorType(SensorType(w)))
  }

  /** `get_LL`: the lower limit for the window's sensor type, or an error for
      an unknown type. */
  function GetLL(w: Window<Reading>): (r: Result<real, ConfigError>)
    requires |w.entries| > 0
    ensures r.Success? <==> SensorType(w) in KnownSensorTypes
    ensures r.Failure? ==> r.error == UnknownSensorType(SensorType(w))
    ensures r.Success? ==> Spec(SensorType(w)).Some? && r.value == Spec(SensorType(w)).value.lower
  {
    match Spec(SensorType(w))
    case Some(spec) => Success(spec.lower)
    case None => Failure(UnknownSensorType(SensorType(w)))
  }

  /** `get_max_time`: 30 minutes for every known type, and the same default
      for an unknown one. */
  function GetMaxTime(w: Window<Reading>): (m: int)
    requires |w.entries| > 0
    ensures m == ThirtyMinutes
  {
    match Spec(SensorType(w))
    case Some(spec) => spec.maxStagnant
    case None => ThirtyMinutes
  }

  /** Every known type has a lower limit strictly below its upper limit, and
      the two temperature names share 45 and -10. */
  lemma LimitsAreOrdered(w: Window<Reading>)
    requires |w.entries| > 0
    ensures GetUL(w).Success? && GetLL(w).Success? ==> GetLL(w).value < GetUL(w).value
    ensures SensorType(w) in {"SSTEMP_sensor", "TEMP_sensor"} ==> GetUL(w) == Success(45.0) && GetLL(w) == Success(-10.0)
  {
  }
}
