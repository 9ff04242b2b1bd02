/** Device types, the classes that carry them, and their two spellings. */
module Devices {
  import opened CText

  /** The enumeration, in the order of its values. */
  datatype DeviceType =
    | Unknown | Camera | CoverCalibrator | Dome | FilterWheel | Focuser
    | ObservingConditions | Rotator | SafetyMonitor | Switch | Telescope

  function Ordinal(t: DeviceType): (n: nat)
    ensures n <= 10
  {
    match t
    case Unknown => 0
    case Camera => 1
    case CoverCalibrator => 2
    case Dome => 3
    case FilterWheel => 4
    case Focuser => 5
    case ObservingConditions => 6
    case Rotator => 7
    case SafetyMonitor => 8
    case Switch => 9
    case Telescope => 10
  }

  /** All types, in the order in which a map iterates over them. */
  const ALL_TYPES := [Unknown, Camera, CoverCalibrator, Dome, FilterWheel, Focuser,
                      ObservingConditions, Rotator, SafetyMonitor, Switch, Telescope]

  predicate AreIncreasing(types: seq<DeviceType>) {
    forall i, j | 0 <= i < j < |types| :: Ordinal(types[i]) < Ordinal(types[j])
  }

  lemma TailIncreases(types: seq<DeviceType>)
    requires AreIncreasing(types) && types != []
    ensures AreIncreasing(types[1..]) && types[0] !in types[1..]
    ensures forall t | t in types[1..] :: Ordinal(types[0]) < Ordinal(t)
    ensures forall t :: t in types <==> t == types[0] || t in types[1..]
  {
    assert types == [types[0]] + types[1..];
  }

  lemma OrdinalInjective(t: DeviceType, u: DeviceType)
    ensures Ordinal(t) == Ordinal(u) <==> t == u
  {
  }

  lemma EveryTypeIsListed(t: DeviceType)
    ensures t in ALL_TYPES
  {
    assert ALL_TYPES[Ordinal(t)] == t;
  }

  lemma AllTypesIncrease()
    ensures AreIncreasing(ALL_TYPES)
  {
    forall i | 0 <= i < |ALL_TYPES|
      ensures Ordinal(ALL_TYPES[i]) == i
    {
    }
  }

  /** The C++ class of a device object. */
  datatype DeviceClass =
    | CameraClass | CoverCalibratorClass | DomeClass | FilterWheelClass | FocuserClass
    | ObservingConditionsClass | RotatorClass | SafetyMonitorClass | SwitchClass | TelescopeClass

  /** The `device_type()` overrides. */
  function TypeOfClass(c: DeviceClass): DeviceType {
    match c
    case CameraClass => Camera
    case CoverCalibratorClass => CoverCalibrator
    case DomeClass => Dome
    case FilterWheelClass => FilterWheel
    case FocuserClass => Focuser
    case ObservingConditionsClass => ObservingConditions
    case RotatorClass => Rotator
    case SafetyMonitorClass => SafetyMonitor
    case SwitchClass => Switch
    case TelescopeClass => Telescope
  }

  /** The tag tells the class, which is what justifies a downcast guarded by the tag. */
  lemma TagTellsClass(c: DeviceClass, d: DeviceClass)
    ensures TypeOfClass(c) != Unknown
    ensures TypeOfClass(c) == TypeOfClass(d) <==> c == d
  {
  }

  /** A device object: its address and its class. */
  datatype Device = Device(address: nat, cls: DeviceClass) {
    function Type(): DeviceType {
      TypeOfClass(cls)
    }
  }

  // ---- names ----

  function UriName(t: DeviceType): string {
    match t
    case Camera => "camera"
    case CoverCalibrator => "covercalibrator"
    case Dome => "dome"
    case FilterWheel => "filterwheel"
    case Focuser => "focuser"
    case ObservingConditions => "observingconditions"
    case Rotator => "rotator"
    case SafetyMonitor => "safetymonitor"
    case Switch => "switch"
    case Telescope => "telescope"
    case Unknown => "unknown"
  }

  function FriendlyName(t: DeviceType): string {
    match t
    case Camera => "Camera"
    case CoverCalibrator => "CoverCalibrator"
    case Dome => "Dome"
    case FilterWheel => "FilterWheel"
    case Focuser => "Focuser"
    case ObservingConditions => "ObservingConditions"
    case Rotator => "Rotator"
    case SafetyMonitor => "SafetyMonitor"
    case Switch => "Switch"
    case Telescope => "Telescope"
    case Unknown => "Unknown"
  }

  /** The types that `parse_request` compares the name with, in its order. */
  const URI_TYPES := [Camera, CoverCalibrator, Dome, FilterWheel, Focuser,
                      ObservingConditions, Rotator, SafetyMonitor, Switch, Telescope]

  function FindType(s: string, types: seq<DeviceType>): DeviceType {
    if types == [] then Unknown
    else if s == UriName(types[0]) then types[0]
    else FindType(s, types[1..])
  }

  /** The chain of comparisons in `parse_request`. */
  function TypeOfUriName(s: string): DeviceType {
    FindType(s, URI_TYPES)
  }

  lemma UriNamesDiffer(t: DeviceType, u: DeviceType)
    ensures UriName(t) == UriName(u) <==> t == u
  {
  }

  lemma {:induction false} FindsItself(t: DeviceType, types: seq<DeviceType>)
    ensures FindType(UriName(t), types) == if t in types then t else Unknown
  {
    if types != [] {
      UriNamesDiffer(t, types[0]);
      FindsItself(t, types[1..]);
    }
  }

  /** The printer and the chain of comparisons agree; "unknown" reads back as no type. */
  lemma UriNameReadsBack(t: DeviceType)
    ensures TypeOfUriName(UriName(t)) == t
  {
    FindsItself(t, URI_TYPES);
    if t != Unknown {
      assert URI_TYPES[Ordinal(t) - 1] == t;
    }
  }

  /** Letters only: no separator of a path, no terminator. */
  predicate IsName(s: string) {
    && 0 < |s| <= 19
    && forall i | 0 <= i < |s| :: 'A' <= s[i] <= 'Z' || 'a' <= s[i] <= 'z'
  }

  lemma UriNameShape(t: DeviceType)
    ensures IsName(UriName(t))
  {
  }

  lemma FriendlyNameShape(t: DeviceType)
    ensures IsName(FriendlyName(t))
  {
  }

  // ---- writing a name into the caller's buffer ----

  /** The bytes that `strncpy` leaves: the text, cut or padded with NULs to `len` bytes. */
  function Padded(text: string, len: nat): seq<char> {
    seq(len, i requires 0 <= i < len => if i < |text| then text[i] else NUL)
  }

  method StrNCpy(buf: array<char>, text: string, len: nat)
    requires len <= buf.Length
    modifies buf
    ensures buf[..] == Padded(text, len) + old(buf[len..])
  {
    forall i | 0 <= i < len {
      buf[i] := if i < |text| then text[i] else NUL;
    }
  }

  lemma PaddedReads(text: string, len: nat, tail: seq<char>)
    requires NUL !in text && |text| < len
    ensures CStr(Padded(text, len) + tail) == text
  {
    CStrOfText(text, Padded(text, len) + tail);
  }

  /** The name is written in full exactly when the buffer has room for it and a terminator. */
  method WriteUriName(t: DeviceType, buf: array<char>, len: nat)
    requires len <= buf.Length
    modifies buf
    ensures buf[..] == Padded(UriName(t), len) + old(buf[len..])
    ensures |UriName(t)| < len ==> CStr(buf[..]) == UriName(t)
  {
    StrNCpy(buf, UriName(t), len);
    UriNameShape(t);
    if |UriName(t)| < len {
      PaddedReads(UriName(t), len, old(buf[len..]));
    }
  }

  /** The friendly name is always terminated, cut short when the buffer is. */
  method WriteFriendlyName(t: DeviceType, buf: array<char>, len: nat)
    requires 0 < len <= buf.Length
    modifies buf
    ensures CStr(buf[..]) == if |FriendlyName(t)| < len then FriendlyName(t) else FriendlyName(t)[..len - 1]
    ensures buf[len..] == old(buf[len..])
  {
    var name := FriendlyName(t);
    StrNCpy(buf, name, len);
    buf[len - 1] := NUL;
    ghost var n := if |name| < len then |name| else len - 1;
    FriendlyNameShape(t);
    IndexIs(buf[..], NUL, n);
    assert buf[..n] == name[..n];
  }
}
