/**
 What the management replies say, read as a client reads them, and how a client gets from the
 configured-devices reply to a device.
 */
module Listings {
  import opened CText
  import opened Devices
  import opened Addressing
  import opened Handlers
  import opened Json
  import opened Registry
  import opened Replies
  import opened Routes
  import opened Uri

  /** An object with four different keys. */
  lemma FindInFour(a: Item, b: Item, c: Item, d: Item)
    requires a.key != b.key && a.key != c.key && a.key != d.key && b.key != c.key && b.key != d.key && c.key != d.key
    ensures FindItem([a, b, c, d], a.key) == Some(a.value) && FindItem([a, b, c, d], b.key) == Some(b.value)
    ensures FindItem([a, b, c, d], c.key) == Some(c.value) && FindItem([a, b, c, d], d.key) == Some(d.value)
  {
    var items := [a, b, c, d];
    assert items == [a, b] + [c, d];
    forall key
      ensures FindItem(items, key) == if FindItem([a, b], key).Some? then FindItem([a, b], key) else FindItem([c, d], key)
    {
      FindInConcat([a, b], [c, d], key);
    }
    FindInTwo(a, b, a.key);
    FindInTwo(a, b, b.key);
    FindInTwo(a, b, c.key);
    FindInTwo(a, b, d.key);
    FindInTwo(c, d, c.key);
    FindInTwo(c, d, d.key);
  }

  // ---- the list of devices ----

  /** What one element of the configured-devices reply tells. */
  ghost predicate Describes(env: Env, json: Json, e: Entry) {
    && json.Object?
    && FindItem(json.items, "DeviceName") == Some(Text(env.nameOf(e.device)))
    && FindItem(json.items, "DeviceType") == Some(Text(FriendlyName(e.device.Type())))
    && FindItem(json.items, "DeviceNumber") == Some(Number(e.number as real))
    && FindItem(json.items, "UniqueID") == Some(Text(env.uniqueIdOf(e.device)))
  }

  lemma EntryIsDescribed(env: Env, e: Entry)
    ensures Describes(env, EntryJson(env, e), e)
  {
    var items := EntryJson(env, e).items;
    assert |"DeviceName"| == 10 && |"DeviceNumber"| == 12 && |"UniqueID"| == 8;
    assert "DeviceName"[6] == 'N' && "DeviceType"[6] == 'T';
    FindInFour(items[0], items[1], items[2], items[3]);
  }

  /** The configured-devices reply describes the entries of the listing, one by one and in order. */
  ghost predicate DescribesAll(env: Env, json: Json, entries: seq<Entry>) {
    && json.List? && |json.elements| == |entries|
    && forall i | 0 <= i < |entries| :: Describes(env, json.elements[i], entries[i])
  }

  lemma ListingIsDescribed(env: Env, m: DeviceMap)
    ensures DescribesAll(env, ManagementValue(env, ConfiguredDevices, m), Listing(m))
  {
    forall i | 0 <= i < |Listing(m)|
      ensures Describes(env, ListingJson(env, Listing(m))[i], Listing(m)[i])
    {
      EntryIsDescribed(env, Listing(m)[i]);
    }
  }

  // ---- the server ----

  ghost predicate DescribesServer(json: Json, d: Description) {
    && json.Object?
    && FindItem(json.items, "ServerName") == Some(Text(d.serverName))
    && FindItem(json.items, "Manufacturer") == Some(Text(d.manufacturer))
    && FindItem(json.items, "ManufacturerVersion") == Some(Text(d.manufacturerVersion))
    && FindItem(json.items, "Location") == Some(Text(d.location))
  }

  lemma ServerIsDescribed(d: Description)
    ensures DescribesServer(Object(DescriptionItems(d)), d)
  {
    var items := DescriptionItems(d);
    assert |"ServerName"| == 10 && |"Manufacturer"| == 12 && |"ManufacturerVersion"| == 19 && |"Location"| == 8;
    FindInFour(items[0], items[1], items[2], items[3]);
  }

  /** The value of a management reply: version 1, the server, or the listing. */
  ghost predicate IsManagementValue(env: Env, target: Target, m: DeviceMap, json: Json)
    requires !IsDeviceTarget(target)
  {
    match target
    case ApiVersions => json == List([Number(1.0)])
    case ServerDescription => DescribesServer(json, env.description)
    case ConfiguredDevices => DescribesAll(env, json, Listing(m))
  }

  lemma ManagementSays(env: Env, target: Target, m: DeviceMap)
    requires !IsDeviceTarget(target)
    ensures IsManagementValue(env, target, m, ManagementValue(env, target, m))
  {
    ListingIsDescribed(env, m);
    ServerIsDescribed(env.description);
  }

  // ---- from the listing to a device ----

  /** A client gets the name in a path from the name in the listing. */
  lemma LowerIsUriName(t: DeviceType)
    ensures Lower(FriendlyName(t)) == UriName(t)
  {
    match t
    case CoverCalibrator => LowerShortWords();
    case FilterWheel => LowerShortWords();
    case ObservingConditions => LowerObserving();
    case SafetyMonitor => LowerSafety();
    case _ => LowerOneWord(t);
  }

  lemma LowerShortWords()
    ensures Lower(FriendlyName(CoverCalibrator)) == UriName(CoverCalibrator)
    ensures Lower(FriendlyName(FilterWheel)) == UriName(FilterWheel)
  {
    LowerTwoWords("Cover", "Calibrator", "cover", "calibrator");
    LowerTwoWords("Filter", "Wheel", "filter", "wheel");
  }

  lemma LowerObserving()
    ensures Lower(FriendlyName(ObservingConditions)) == UriName(ObservingConditions)
  {
    LowerTwoWords("Observing", "Conditions", "observing", "conditions");
  }

  lemma LowerSafety()
    ensures Lower(FriendlyName(SafetyMonitor)) == UriName(SafetyMonitor)
  {
    LowerTwoWords("Safety", "Monitor", "safety", "monitor");
  }

  lemma LowerTwoWords(a: string, b: string, c: string, d: string)
    requires Lower(a) == c && Lower(b) == d
    ensures Lower(a + b) == c + d
  {
  }

  lemma LowerOneWord(t: DeviceType)
    requires t in {Unknown, Camera, Dome, Focuser, Rotator, Switch, Telescope}
    ensures Lower(FriendlyName(t)) == UriName(t)
  {
  }

  lemma SameReal(m: nat, n: nat)
    requires m as real == n as real
    ensures m == n
  {
    assert (m as real).Floor == m && (n as real).Floor == n;
  }

  /**
   A client that reads type and number of the i-th device out of the reply, and asks for any
   endpoint under them, gets to that device, if the number is below 256.
   */
  lemma ListingLeadsBack(env: Env, m: DeviceMap, ds: seq<Device>, json: Json, i: nat, name: string, number: nat,
                         endpoint: string, uri: string)
    requires IsRegistryOf(m, ds) && DescribesAll(env, json, Listing(m)) && i < |json.elements|
    requires FindItem(json.elements[i].items, "DeviceType") == Some(Text(name))
    requires FindItem(json.elements[i].items, "DeviceNumber") == Some(Number(number as real))
    requires PathOf(uri) == RoutePath(Lower(name), number, endpoint) && number < 256
    ensures var device := Listing(m)[i].device;
            && Resolves(uri, m, device.Type(), number)
            && DevicesOf(m, device.Type())[number] == device
  {
    var e := Listing(m)[i];
    assert Describes(env, json.elements[i], e);
    LowerIsUriName(e.device.Type());
    SameReal(number, e.number);
    var k := EntryResolves(m, ds, e, endpoint, uri);
  }
}
