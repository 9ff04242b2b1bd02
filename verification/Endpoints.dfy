/**
 The endpoints of every device class, in the order of their registration: the name in the route,
 the method, what the handler reads from the request, and whether its reply carries a value.
 */
module Endpoints {
  import opened Devices

  datatype Verb = GET | PUT

  /** How a handler checks a parameter. */
  datatype Check = AnyText | TrueOrFalse | StrictInt | LenientInt | Decimals

  /** Not as long as the name of an id, or with another first letter. */
  type ParamName = s: string | (|s| != 8 && |s| != 19) || (s[0] != 'C' && s[0] != 'c')

  /** Short enough for the buffer that a route is printed into. */
  type EndpointName = s: string | |s| <= 20

  datatype Param = Param(name: ParamName, check: Check, caseSensitive: bool)

  datatype Endpoint = Endpoint(name: EndpointName, verb: Verb, params: seq<Param>, returnsValue: bool)

  function Get(name: EndpointName): Endpoint {
    Endpoint(name, GET, [], true)
  }

  /** The Switch getters look their Id up without regard to case. */
  function GetById(name: EndpointName): Endpoint {
    Endpoint(name, GET, [Param("Id", LenientInt, false)], true)
  }

  function Put(name: EndpointName, params: seq<Param>): Endpoint {
    Endpoint(name, PUT, params, false)
  }

  const COMMON: seq<Endpoint> := [
    Endpoint("action", PUT, [Param("Action", AnyText, true), Param("Parameters", AnyText, true)], true),
    Put("commandblind", [Param("Command", AnyText, true), Param("Raw", TrueOrFalse, true)]),
    Endpoint("commandbool", PUT, [Param("Command", AnyText, true), Param("Raw", TrueOrFalse, true)], true),
    Endpoint("commandstring", PUT, [Param("Command", AnyText, true), Param("Raw", TrueOrFalse, true)], true),
    Get("connected"),
    Put("connected", [Param("Connected", TrueOrFalse, true)]),
    Get("description"),
    Get("driverinfo"),
    Get("driverversion"),
    Get("interfaceversion"),
    Get("name"),
    Get("supportedactions")
  ]

  const COVER_CALIBRATOR: seq<Endpoint> := [
    Get("brightness"),
    Get("calibratorstate"),
    Get("coverstate"),
    Get("maxbrightness"),
    Put("calibratoroff", []),
    Put("calibratoron", [Param("Brightness", StrictInt, true)]),
    Put("closecover", []),
    Put("haltcover", []),
    Put("opencover", [])
  ]

  const DOME_READINGS: seq<Endpoint> := [
    Get("altitude"),
    Get("athome"),
    Get("atpark"),
    Get("azimuth"),
    Get("canfindhome"),
    Get("canpark"),
    Get("cansetaltitude"),
    Get("cansetazimuth"),
    Get("cansetpark"),
    Get("cansetshutter"),
    Get("canslave"),
    Get("cansyncazimuth")
  ]

  const DOME_MOTION: seq<Endpoint> := [
    Get("shutterstatus"),
    Get("slaved"),
    Put("slaved", [Param("Slaved", TrueOrFalse, true)]),
    Get("slewing"),
    Put("abortslew", []),
    Put("closeshutter", []),
    Put("findhome", []),
    Put("openshutter", []),
    Put("park", []),
    Put("setpark", []),
    Put("slewtoaltitude", [Param("Altitude", Decimals, true)]),
    Put("slewtoazimuth", [Param("Azimuth", Decimals, true)]),
    Put("synctoazimuth", [Param("Azimuth", Decimals, true)])
  ]

  const DOME := DOME_READINGS + DOME_MOTION

  const FILTER_WHEEL: seq<Endpoint> := [
    Get("focusoffsets"),
    Get("names"),
    Get("position"),
    Put("position", [Param("Position", LenientInt, true)])
  ]

  const FOCUSER: seq<Endpoint> := [
    Get("absolute"),
    Get("ismoving"),
    Get("maxincrement"),
    Get("maxstep"),
    Get("position"),
    Get("stepsize"),
    Get("tempcomp"),
    Put("tempcomp", [Param("TempComp", TrueOrFalse, true)]),
    Get("tempcompavailable"),
    Get("temperature"),
    Put("halt", []),
    Put("move", [Param("Position", LenientInt, true)])
  ]

  const OBSERVING_FIRST: seq<Endpoint> := [
    Get("averageperiod"),
    Put("averageperiod", [Param("AveragePeriod", Decimals, true)]),
    Get("cloudcover"),
    Get("dewpoint"),
    Get("humidity"),
    Get("pressure"),
    Get("rainrate"),
    Get("skybrightness"),
    Get("skyquality")
  ]

  const OBSERVING_LAST: seq<Endpoint> := [
    Get("skytemperature"),
    Get("starfwhm"),
    Get("temperature"),
    Get("winddirection"),
    Get("windgust"),
    Get("windspeed"),
    Put("refresh", []),
    Endpoint("sensordescription", GET, [Param("SensorName", AnyText, true)], true),
    Get("timesincelastupdate")
  ]

  const OBSERVING_CONDITIONS := OBSERVING_FIRST + OBSERVING_LAST

  const ROTATOR: seq<Endpoint> := [
    Get("canreverse"),
    Get("ismoving"),
    Get("mechanicalposition"),
    Get("position"),
    Get("reverse"),
    Put("reverse", [Param("Reverse", TrueOrFalse, true)]),
    Get("stepsize"),
    Get("targetposition"),
    Put("halt", []),
    Put("move", [Param("Position", Decimals, true)]),
    Put("moveabsolute", [Param("Position", Decimals, true)]),
    Put("movemechanical", [Param("Position", Decimals, true)]),
    Put("sync", [Param("Position", Decimals, true)])
  ]

  const SAFETY_MONITOR: seq<Endpoint> := [
    Get("issafe")
  ]

  const SWITCH: seq<Endpoint> := [
    Get("maxswitch"),
    GetById("canwrite"),
    GetById("getswitch"),
    GetById("getswitchdescription"),
    GetById("getswitchname"),
    GetById("getswitchvalue"),
    GetById("minswitchvalue"),
    GetById("maxswitchvalue"),
    Put("setswitch", [Param("Id", LenientInt, true), Param("State", TrueOrFalse, true)]),
    Put("setswitchname", [Param("Id", LenientInt, true), Param("Name", AnyText, true)]),
    Put("setswitchvalue", [Param("Id", LenientInt, true), Param("Value", Decimals, true)]),
    GetById("switchstep")
  ]

  /** The routes that only devices of a class have. Camera and Telescope register none. */
  function SpecificEndpoints(c: DeviceClass): seq<Endpoint> {
    match c
    case CameraClass => []
    case CoverCalibratorClass => COVER_CALIBRATOR
    case DomeClass => DOME
    case FilterWheelClass => FILTER_WHEEL
    case FocuserClass => FOCUSER
    case ObservingConditionsClass => OBSERVING_CONDITIONS
    case RotatorClass => ROTATOR
    case SafetyMonitorClass => SAFETY_MONITOR
    case SwitchClass => SWITCH
    case TelescopeClass => []
  }

  /** The type name that the specific registrations spell out; the common ones print it. */
  function SpecificPrefix(c: DeviceClass): string {
    match c
    case CameraClass => "camera"
    case CoverCalibratorClass => "covercalibrator"
    case DomeClass => "dome"
    case FilterWheelClass => "filterwheel"
    case FocuserClass => "focuser"
    case ObservingConditionsClass => "observingconditions"
    case RotatorClass => "rotator"
    case SafetyMonitorClass => "safetymonitor"
    case SwitchClass => "switch"
    case TelescopeClass => "telescope"
  }

  lemma PrefixIsUriName(c: DeviceClass)
    ensures SpecificPrefix(c) == UriName(TypeOfClass(c))
  {
  }

  function EndpointsOf(c: DeviceClass): seq<Endpoint> {
    COMMON + SpecificEndpoints(c)
  }

  lemma EndpointCounts(c: DeviceClass)
    ensures |EndpointsOf(c)| == 12 + match c
                                     case CameraClass => 0
                                     case CoverCalibratorClass => 9
                                     case DomeClass => 25
                                     case FilterWheelClass => 4
                                     case FocuserClass => 12
                                     case ObservingConditionsClass => 18
                                     case RotatorClass => 13
                                     case SafetyMonitorClass => 1
                                     case SwitchClass => 12
                                     case TelescopeClass => 0
  {
  }

  // ---- no two endpoints of a device coincide ----

  predicate Differ(e: Endpoint, f: Endpoint) {
    e.name != f.name || e.verb != f.verb
  }

  predicate AllDiffer(es: seq<Endpoint>) {
    forall i, j | 0 <= i < j < |es| :: Differ(es[i], es[j])
  }

  /** The part of AllDiffer that concerns the endpoints with an index in a range. */
  predicate DifferFrom(es: seq<Endpoint>, lo: nat, hi: nat) {
    forall i, j | lo <= i < hi && i < j < |es| :: Differ(es[i], es[j])
  }

  predicate Apart(es: seq<Endpoint>, fs: seq<Endpoint>) {
    forall i, j | 0 <= i < |es| && 0 <= j < |fs| :: Differ(es[i], fs[j])
  }

  lemma CommonFirstDiffer()
    ensures DifferFrom(COMMON, 0, 4)
  {
  }

  lemma CommonLastDiffer()
    ensures DifferFrom(COMMON, 4, 12)
  {
  }

  lemma CommonDiffer()
    ensures AllDiffer(COMMON)
  {
    CommonFirstDiffer();
    CommonLastDiffer();
  }

  lemma SpecificDiffer(c: DeviceClass)
    ensures AllDiffer(SpecificEndpoints(c))
  {
    match c {
      case CameraClass =>
      case CoverCalibratorClass => CoverCalibratorDiffer();
      case DomeClass => DomeDiffer();
      case FilterWheelClass => FilterWheelDiffer();
      case FocuserClass => FocuserDiffer();
      case ObservingConditionsClass => ObservingConditionsDiffer();
      case RotatorClass => RotatorDiffer();
      case SafetyMonitorClass =>
      case SwitchClass => SwitchDiffer();
      case TelescopeClass =>
    }
  }

  lemma CoverCalibratorDiffer()
    ensures AllDiffer(COVER_CALIBRATOR)
  {
  }

  lemma CoverCalibratorApart()
    ensures Apart(COMMON, COVER_CALIBRATOR)
  {
  }

  lemma DomeReadingsFirstDiffer()
    ensures DifferFrom(DOME_READINGS, 0, 4)
  {
  }

  lemma DomeReadingsLastDiffer()
    ensures DifferFrom(DOME_READINGS, 4, 12)
  {
  }

  lemma DomeMotionFirstDiffer()
    ensures DifferFrom(DOME_MOTION, 0, 5)
  {
  }

  lemma DomeMotionLastDiffer()
    ensures DifferFrom(DOME_MOTION, 5, 13)
  {
  }

  lemma DomeHalvesApart()
    ensures Apart(DOME_READINGS, DOME_MOTION)
  {
  }

  lemma DomeDiffer()
    ensures AllDiffer(DOME)
  {
    DomeReadingsFirstDiffer();
    DomeReadingsLastDiffer();
    DomeMotionFirstDiffer();
    DomeMotionLastDiffer();
    DomeHalvesApart();
    DifferConcat(DOME_READINGS, DOME_MOTION);
  }

  lemma DomeReadingsApart()
    ensures Apart(COMMON, DOME_READINGS)
  {
  }

  lemma DomeMotionApart()
    ensures Apart(COMMON, DOME_MOTION)
  {
  }

  lemma DomeApart()
    ensures Apart(COMMON, DOME)
  {
    DomeReadingsApart();
    DomeMotionApart();
    ApartConcat(COMMON, DOME_READINGS, DOME_MOTION);
  }

  lemma FilterWheelDiffer()
    ensures AllDiffer(FILTER_WHEEL)
  {
  }

  lemma FilterWheelApart()
    ensures Apart(COMMON, FILTER_WHEEL)
  {
  }

  lemma SafetyMonitorApart()
    ensures Apart(COMMON, SAFETY_MONITOR)
  {
  }

  lemma FocuserFirstDiffer()
    ensures DifferFrom(FOCUSER, 0, 4)
  {
  }

  lemma FocuserLastDiffer()
    ensures DifferFrom(FOCUSER, 4, 12)
  {
  }

  lemma FocuserDiffer()
    ensures AllDiffer(FOCUSER)
  {
    FocuserFirstDiffer();
    FocuserLastDiffer();
  }

  lemma FocuserApart()
    ensures Apart(COMMON, FOCUSER)
  {
  }

  lemma ObservingFirstDiffer()
    ensures AllDiffer(OBSERVING_FIRST)
  {
  }

  lemma ObservingLastDiffer()
    ensures AllDiffer(OBSERVING_LAST)
  {
  }

  lemma ObservingHalvesApart()
    ensures Apart(OBSERVING_FIRST, OBSERVING_LAST)
  {
  }

  lemma ObservingConditionsDiffer()
    ensures AllDiffer(OBSERVING_CONDITIONS)
  {
    ObservingFirstDiffer();
    ObservingLastDiffer();
    ObservingHalvesApart();
    DifferConcat(OBSERVING_FIRST, OBSERVING_LAST);
  }

  lemma ObservingFirstApart()
    ensures Apart(COMMON, OBSERVING_FIRST)
  {
  }

  lemma ObservingLastApart()
    ensures Apart(COMMON, OBSERVING_LAST)
  {
  }

  lemma ObservingConditionsApart()
    ensures Apart(COMMON, OBSERVING_CONDITIONS)
  {
    ObservingFirstApart();
    ObservingLastApart();
    ApartConcat(COMMON, OBSERVING_FIRST, OBSERVING_LAST);
  }

  lemma RotatorFirstDiffer()
    ensures DifferFrom(ROTATOR, 0, 3)
  {
  }

  lemma RotatorMiddleDiffer()
    ensures DifferFrom(ROTATOR, 3, 7)
  {
  }

  lemma RotatorLastDiffer()
    ensures DifferFrom(ROTATOR, 7, 13)
  {
  }

  lemma RotatorDiffer()
    ensures AllDiffer(ROTATOR)
  {
    RotatorFirstDiffer();
    RotatorMiddleDiffer();
    RotatorLastDiffer();
  }

  lemma RotatorApart()
    ensures Apart(COMMON, ROTATOR)
  {
  }

  lemma SwitchDiffer()
    ensures AllDiffer(SWITCH)
  {
  }

  lemma SwitchApart()
    ensures Apart(COMMON, SWITCH)
  {
  }

  lemma CommonApart(c: DeviceClass)
    ensures Apart(COMMON, SpecificEndpoints(c))
  {
    match c {
      case CameraClass =>
      case CoverCalibratorClass => CoverCalibratorApart();
      case DomeClass => DomeApart();
      case FilterWheelClass => FilterWheelApart();
      case FocuserClass => FocuserApart();
      case ObservingConditionsClass => ObservingConditionsApart();
      case RotatorClass => RotatorApart();
      case SafetyMonitorClass => SafetyMonitorApart();
      case SwitchClass => SwitchApart();
      case TelescopeClass =>
    }
  }

  /** No two endpoints of one device share both name and method. */
  lemma EndpointsDiffer(c: DeviceClass)
    ensures AllDiffer(EndpointsOf(c))
  {
    CommonDiffer();
    SpecificDiffer(c);
    CommonApart(c);
    DifferConcat(COMMON, SpecificEndpoints(c));
  }

  lemma DifferConcat(es: seq<Endpoint>, fs: seq<Endpoint>)
    requires AllDiffer(es) && AllDiffer(fs) && Apart(es, fs)
    ensures AllDiffer(es + fs)
  {
  }

  lemma ApartConcat(es: seq<Endpoint>, fs: seq<Endpoint>, gs: seq<Endpoint>)
    requires Apart(es, fs) && Apart(es, gs)
    ensures Apart(es, fs + gs)
  {
  }
}
