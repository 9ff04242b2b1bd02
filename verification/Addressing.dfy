/**
 The printer of the routes, the server's matching, the parser of the URI and the registry agree:
 a request that reaches a device handler finds the device that the route was registered for.
 */
module Addressing {
  import opened CText
  import opened Decimal
  import opened Devices
  import opened Endpoints
  import opened Handlers
  import opened Registry
  import opened Requests
  import opened Routes
  import opened Uri

  /** A URI under the path of a type and number reads back as that type and the low byte. */
  lemma PathResolves(t: DeviceType, number: nat, endpoint: string, uri: string)
    requires PathOf(uri) == RoutePath(UriName(t), number, endpoint)
    ensures ScanUri(uri) == UriFields(UriName(t), number % 256)
    ensures TypeOfUriName(ScanUri(uri).typeName) == t
  {
    var i := Index(uri, '?');
    assert uri == uri[..i] + uri[i..];
    ScanReadsRoute(t, number, endpoint, uri[i..]);
    UriNameReadsBack(t);
  }

  /** A number is its own low byte exactly when it fits in a byte. */
  lemma OwnLowByte(n: nat)
    ensures n % 256 <= n
    ensures n % 256 == n <==> n < 256
  {
  }

  /** What a URI resolves to: an index into the devices of a type. */
  predicate Resolves(uri: string, m: DeviceMap, t: DeviceType, i: nat) {
    && TypeOfUriName(ScanUri(uri).typeName) == t
    && ScanUri(uri).number == i < |DevicesOf(m, t)|
  }

  /**
   Every entry of the listing is found again under its printed address: always a device of the
   same class, and the very same entry exactly when its number fits in a byte.
   */
  lemma EntryResolves(m: DeviceMap, ds: seq<Device>, e: Entry, endpoint: string, uri: string) returns (i: nat)
    requires IsRegistryOf(m, ds) && e in Listing(m)
    requires PathOf(uri) == RoutePath(UriName(e.device.Type()), e.number, endpoint)
    ensures Resolves(uri, m, e.device.Type(), i) && e.device.Type() != Unknown
    ensures DevicesOf(m, e.device.Type())[i].cls == e.device.cls
    ensures i == e.number <==> e.number < 256
    ensures e.number < 256 ==> DevicesOf(m, e.device.Type())[i] == e.device
  {
    var t := e.device.Type();
    i := e.number % 256;
    PathResolves(t, e.number, endpoint, uri);
    ListedEntries(m, ds, e);
    OwnLowByte(e.number);
    RegistryTags(m, ds, t, i);
    TagTellsClass(DevicesOf(m, t)[i].cls, e.device.cls);
  }

  // ---- from the table to the handler ----

  /** The server passes a request to a handler exactly when the table has its method and path. */
  predicate IsRouted(rs: seq<Route>, req: HttpRequest, target: Target) {
    Dispatch(rs, req.verb, PathOf(req.uri)) == Some(Route(req.verb, PathOf(req.uri), target))
  }

  /** A device route of the table belongs to an entry of the listing. */
  lemma {:induction false} RouteOwner(entries: seq<Entry>, r: Route) returns (e: Entry, k: nat)
    requires r in RoutesOver(entries)
    ensures e in entries && k < |EndpointsOf(e.device.cls)| && r == DeviceRoute(e, k)
  {
    if r in DeviceRoutes(entries[0]) {
      e := entries[0];
      k :| 0 <= k < |DeviceRoutes(e)| && DeviceRoutes(e)[k] == r;
    } else {
      e, k := RouteOwner(entries[1..], r);
    }
  }

  lemma RoutedOwner(m: DeviceMap, req: HttpRequest, target: Target) returns (e: Entry, k: nat)
    requires IsRouted(RouteTable(m), req, target) && IsDeviceTarget(target)
    ensures e in Listing(m) && k < |EndpointsOf(e.device.cls)|
    ensures Route(req.verb, PathOf(req.uri), target) == DeviceRoute(e, k)
  {
    DispatchSound(RouteTable(m), req.verb, PathOf(req.uri));
    var r := Route(req.verb, PathOf(req.uri), target);
    assert r !in MANAGEMENT;
    assert r in RoutesOver(Listing(m));
    e, k := RouteOwner(Listing(m), r);
  }

  /**
   End to end, for every list of devices: a request that matches a device route is refused only
   for the length of its query, its type is the one the handler asks for, and the device it gets
   is of the class that the handler casts it to. `m` is the registry that the table was built
   from and `m'` what it has become since.
   */
  lemma RoutedRequestIsSafe(m: DeviceMap, m': DeviceMap, ds: seq<Device>, req: HttpRequest, target: Target)
    requires IsRegistryOf(m, ds) && SameDevices(m, m')
    requires IsRouted(RouteTable(m), req, target) && IsDeviceTarget(target)
    ensures StatusOf(req, m') == if |QueryOf(req.uri)| > MAX_QUERY then InvalidSize else OK
    ensures var p := ParsedOf(req, 0);
            && p.deviceNumber < |DevicesOf(m', p.deviceType)|
            && TypeMatches(target, p.deviceType)
            && (CastOf(target).Some? ==> DevicesOf(m', p.deviceType)[p.deviceNumber].cls == CastOf(target).value)
  {
    var e, k := RoutedOwner(m, req, target);
    DeviceRouteUri(e, k);
    var i := EntryResolves(m, ds, e, EndpointsOf(e.device.cls)[k].name, req.uri);
    assert DevicesOf(m', e.device.Type()) == DevicesOf(m, e.device.Type());
  }

  /** The entry is the one the route was registered for exactly when its number fits in a byte. */
  lemma RoutedRequestFindsItsEntry(m: DeviceMap, m': DeviceMap, ds: seq<Device>, e: Entry, k: nat, req: HttpRequest)
    requires IsRegistryOf(m, ds) && SameDevices(m, m') && |ds| < TWO32
    requires e in Listing(m) && k < |EndpointsOf(e.device.cls)|
    requires req.verb == DeviceRoute(e, k).verb && PathOf(req.uri) == DeviceRoute(e, k).uri
    ensures IsRouted(RouteTable(m), req, DeviceRoute(e, k).target)
    ensures var p := ParsedOf(req, 0);
            && p.deviceType == e.device.Type()
            && p.deviceNumber == e.number % 256 < |DevicesOf(m', p.deviceType)|
            && (p.deviceNumber == e.number <==> e.number < 256)
  {
    DeviceRouteUri(e, k);
    var i := EntryResolves(m, ds, e, EndpointsOf(e.device.cls)[k].name, req.uri);
    PathResolves(e.device.Type(), e.number, EndpointsOf(e.device.cls)[k].name, req.uri);
    assert DevicesOf(m', e.device.Type()) == DevicesOf(m, e.device.Type());
    RouteIsListed(Listing(m), e, k);
    TableNoClash(m, ds);
    DispatchFinds(RouteTable(m), DeviceRoute(e, k));
  }

  /** In a list without repetitions the place of a device under its type tells the device. */
  lemma PlaceTellsDevice(m: DeviceMap, ds: seq<Device>, t: DeviceType, i: nat, j: nat)
    requires IsRegistryOf(m, ds) && NoDuplicates(ds)
    requires i < |DevicesOf(m, t)| && j < |DevicesOf(m, t)|
    ensures DevicesOf(m, t)[i] == DevicesOf(m, t)[j] <==> i == j
  {
    OfTypeDistinct(ds, t);
  }

  /**
   The device is the one the route was registered for exactly when its number fits in a byte, as
   long as no device was listed twice.
   */
  lemma RoutedRequestFindsItsDevice(m: DeviceMap, m': DeviceMap, ds: seq<Device>, e: Entry, k: nat, req: HttpRequest)
    requires IsRegistryOf(m, ds) && SameDevices(m, m') && |ds| < TWO32
    requires e in Listing(m) && k < |EndpointsOf(e.device.cls)|
    requires req.verb == DeviceRoute(e, k).verb && PathOf(req.uri) == DeviceRoute(e, k).uri
    ensures IsRouted(RouteTable(m), req, DeviceRoute(e, k).target)
    ensures var p := ParsedOf(req, 0);
            && p.deviceType == e.device.Type() && p.deviceNumber < |DevicesOf(m', p.deviceType)|
            && (e.number < 256 ==> DevicesOf(m', p.deviceType)[p.deviceNumber] == e.device)
            && (NoDuplicates(ds) ==> (DevicesOf(m', p.deviceType)[p.deviceNumber] == e.device <==> e.number < 256))
  {
    RoutedRequestFindsItsEntry(m, m', ds, e, k, req);
    var t := e.device.Type();
    assert DevicesOf(m', t) == DevicesOf(m, t);
    ListedEntries(m, ds, e);
    if NoDuplicates(ds) {
      PlaceTellsDevice(m, ds, t, e.number % 256, e.number);
    }
  }

  // ---- which handler a path leads to ----

  /** The target that an endpoint of a class is registered with. */
  function TargetFor(c: DeviceClass, k: nat): Target
    requires k < |EndpointsOf(c)|
  {
    var p := EndpointsOf(c)[k];
    if k < 12 then Common(p) else Specific(c, p)
  }

  lemma DeviceRouteTarget(e: Entry, k: nat)
    requires k < |EndpointsOf(e.device.cls)|
    ensures DeviceRoute(e, k).target == TargetFor(e.device.cls, k)
  {
    assert |COMMON| == 12;
  }

  /** The device that is reached for the n-th device of a class. */
  function Reached(ds: seq<Device>, c: DeviceClass, n: nat): Device
    requires n < |OfType(ds, TypeOfClass(c))|
  {
    OwnLowByte(n);
    OfType(ds, TypeOfClass(c))[n % 256]
  }

  /** Is this the path and the method of an endpoint of a device? */
  predicate AsksFor(req: HttpRequest, c: DeviceClass, number: nat, p: Endpoint) {
    req.verb == p.verb && PathOf(req.uri) == RoutePath(UriName(TypeOfClass(c)), number, p.name)
  }

  lemma AsksOnce(req: HttpRequest, c: DeviceClass, m: nat, k: nat, d: DeviceClass, n: nat, l: nat)
    requires m < TWO32 && n < TWO32 && k < |EndpointsOf(c)| && l < |EndpointsOf(d)|
    requires AsksFor(req, c, m, EndpointsOf(c)[k]) && AsksFor(req, d, n, EndpointsOf(d)[l])
    ensures c == d && m == n && k == l
  {
    UriNameShape(TypeOfClass(c));
    UriNameShape(TypeOfClass(d));
    RoutePathInjective(UriName(TypeOfClass(c)), m, EndpointsOf(c)[k].name, UriName(TypeOfClass(d)), n, EndpointsOf(d)[l].name);
    UriNamesDiffer(TypeOfClass(c), TypeOfClass(d));
    TagTellsClass(c, d);
    EndpointsDiffer(c);
    assert !Differ(EndpointsOf(c)[k], EndpointsOf(c)[l]);
  }

  /** The endpoint that a routed request asks for is the one that its handler serves. */
  lemma RoutedAsksFor(m: DeviceMap, ds: seq<Device>, req: HttpRequest, target: Target)
    returns (c: DeviceClass, number: nat, k: nat)
    requires IsRegistryOf(m, ds) && |ds| < TWO32
    requires IsRouted(RouteTable(m), req, target) && IsDeviceTarget(target)
    ensures k < |EndpointsOf(c)| && AsksFor(req, c, number, EndpointsOf(c)[k]) && target == TargetFor(c, k)
    ensures number < |OfType(ds, TypeOfClass(c))| < TWO32
  {
    var e;
    e, k := RoutedOwner(m, req, target);
    c, number := e.device.cls, e.number;
    DeviceRouteUri(e, k);
    DeviceRouteTarget(e, k);
    ListedEntries(m, ds, e);
    OfTypeMembers(ds, TypeOfClass(c));
  }

  /**
   The path and the method of an endpoint lead to the handler of that endpoint and to no other,
   exactly when there is a device of the type with the number.
   */
  lemma PathLeadsToHandler(m: DeviceMap, ds: seq<Device>, req: HttpRequest, c: DeviceClass, number: nat, k: nat, target: Target)
    requires IsRegistryOf(m, ds) && |ds| < TWO32
    requires number < TWO32 && k < |EndpointsOf(c)| && AsksFor(req, c, number, EndpointsOf(c)[k])
    ensures IsRouted(RouteTable(m), req, target) && IsDeviceTarget(target) <==>
            number < |OfType(ds, TypeOfClass(c))| && target == TargetFor(c, k)
  {
    if IsRouted(RouteTable(m), req, target) && IsDeviceTarget(target) {
      var d, n, l := RoutedAsksFor(m, ds, req, target);
      AsksOnce(req, c, number, k, d, n, l);
    }
    if number < |OfType(ds, TypeOfClass(c))| && target == TargetFor(c, k) {
      HandlerIsRouted(m, ds, req, c, number, k);
    }
  }

  lemma HandlerIsRouted(m: DeviceMap, ds: seq<Device>, req: HttpRequest, c: DeviceClass, number: nat, k: nat)
    requires IsRegistryOf(m, ds) && |ds| < TWO32
    requires k < |EndpointsOf(c)| && AsksFor(req, c, number, EndpointsOf(c)[k])
    requires number < |OfType(ds, TypeOfClass(c))|
    ensures IsRouted(RouteTable(m), req, TargetFor(c, k)) && IsDeviceTarget(TargetFor(c, k))
  {
    var t := TypeOfClass(c);
    assert DevicesOf(m, t) == OfType(ds, t);
    var e := Entry(number, DevicesOf(m, t)[number]);
    RegistryTags(m, ds, t, number);
    TagTellsClass(e.device.cls, c);
    ListedEntries(m, ds, e);
    DeviceRouteUri(e, k);
    DeviceRouteTarget(e, k);
    RouteIsListed(Listing(m), e, k);
    TableNoClash(m, ds);
    DispatchFinds(RouteTable(m), DeviceRoute(e, k));
  }

  function ManagementPath(target: Target): string
    requires !IsDeviceTarget(target)
  {
    match target
    case ApiVersions => "/management/apiversions"
    case ServerDescription => "/management/v1/description"
    case ConfiguredDevices => "/management/v1/configureddevices"
  }

  /** The management handlers are reached by their three paths, and by nothing else. */
  lemma ManagementPaths(m: DeviceMap, ds: seq<Device>, req: HttpRequest, target: Target)
    requires IsRegistryOf(m, ds) && |ds| < TWO32 && !IsDeviceTarget(target)
    ensures IsRouted(RouteTable(m), req, target) <==> req.verb == GET && PathOf(req.uri) == ManagementPath(target)
  {
    var r := Route(req.verb, PathOf(req.uri), target);
    NotADeviceRoute(Listing(m), r);
    ManagementRoutes(r);
    TableNoClash(m, ds);
    DispatchFinds(RouteTable(m), r);
  }

  lemma ManagementRoutes(r: Route)
    requires !IsDeviceTarget(r.target)
    ensures r in MANAGEMENT <==> r.verb == GET && r.uri == ManagementPath(r.target)
  {
    match r.target
    case ApiVersions => assert MANAGEMENT[0].target == ApiVersions;
    case ServerDescription => assert MANAGEMENT[1].target == ServerDescription;
    case ConfiguredDevices => assert MANAGEMENT[2].target == ConfiguredDevices;
  }

  // ---- one device too many ----

  function ADome(n: nat): Device {
    Device(n, DomeClass)
  }

  function Domes(n: nat): seq<Device> {
    seq(n, i requires 0 <= i < n => ADome(i))
  }

  lemma {:induction false} AllDomes(ds: seq<Device>)
    requires forall i | 0 <= i < |ds| :: ds[i].cls == DomeClass
    ensures OfType(ds, Dome) == ds
  {
    if ds != [] {
      AllDomes(ds[1..]);
      assert ds == [ds[0]] + ds[1..];
    }
  }

  const BRING_HOME: Target := Specific(DomeClass, Put("findhome", []))

  const TOO_FAR := "/api/v1/dome/256/findhome"

  lemma TooFarIsPrinted()
    ensures RoutePath("dome", 256, "findhome") == TOO_FAR
  {
    assert NatText(25) == "25";
    assert NatText(256) == "25" + "6";
    assert IntText(ToInt32(256)) == "256";
    var s := RoutePath("dome", 256, "findhome");
    assert s == "/api/v1/" + "dome" + "/" + "256" + "/" + "findhome";
  }

  lemma TooFarIsPath(uri: string)
    requires uri == TOO_FAR
    ensures PathOf(uri) == uri && QueryOf(uri) == []
  {
    IndexIs(uri, '?', |uri|);
  }

  /** The place of "findhome" among the endpoints of a dome. */
  const FIND_HOME: nat := 30

  lemma FindHomeIs()
    ensures |EndpointsOf(DomeClass)| == 37 && EndpointsOf(DomeClass)[FIND_HOME] == Put("findhome", [])
  {
    assert |COMMON| == 12 && |DOME_READINGS| == 12 && |DOME_MOTION| == 13;
    assert EndpointsOf(DomeClass)[FIND_HOME] == DOME[18] == DOME_MOTION[6];
  }

  lemma LastDomeIsListed(m: DeviceMap)
    requires IsRegistryOf(m, Domes(257))
    ensures DevicesOf(m, Dome) == Domes(257)
    ensures Entry(256, ADome(256)) in Listing(m)
  {
    AllDomes(Domes(257));
    ListedEntries(m, Domes(257), Entry(256, ADome(256)));
  }

  /** The device that a handler gets for a request. */
  predicate Reaches(req: HttpRequest, m: DeviceMap, d: Device) {
    var p := ParsedOf(req, 0);
    && p.deviceNumber < |DevicesOf(m, p.deviceType)|
    && DevicesOf(m, p.deviceType)[p.deviceNumber] == d
  }

  lemma LastDomeIsRouted(m: DeviceMap, req: HttpRequest)
    requires IsRegistryOf(m, Domes(257))
    requires req.verb == PUT && req.uri == TOO_FAR
    ensures IsRouted(RouteTable(m), req, BRING_HOME)
    ensures ParsedOf(req, 0).deviceType == Dome && ParsedOf(req, 0).deviceNumber == 0
  {
    var e := Entry(256, ADome(256));
    LastDomeIsListed(m);
    FindHomeIs();
    TooFarIsPrinted();
    TooFarIsPath(req.uri);
    DeviceRouteUri(e, FIND_HOME);
    RoutedRequestFindsItsEntry(m, m, Domes(257), e, FIND_HOME, req);
  }

  /** With 257 domes, the request to bring number 256 home goes to number 0, another device. */
  lemma LastDomeIsOutOfReach(m: DeviceMap, req: HttpRequest)
    requires IsRegistryOf(m, Domes(257))
    requires req.verb == PUT && req.uri == TOO_FAR
    ensures IsRouted(RouteTable(m), req, BRING_HOME)
    ensures Entry(256, ADome(256)) in Listing(m)
    ensures StatusOf(req, m) == OK && Reaches(req, m, ADome(0)) && ADome(0) != ADome(256)
  {
    LastDomeIsRouted(m, req);
    LastDomeIsListed(m);
    TooFarIsAccepted(m, req);
  }

  lemma TooFarIsAccepted(m: DeviceMap, req: HttpRequest)
    requires req.uri == TOO_FAR && DevicesOf(m, Dome) == Domes(257)
    requires ParsedOf(req, 0).deviceType == Dome && ParsedOf(req, 0).deviceNumber == 0
    ensures StatusOf(req, m) == OK
  {
    TooFarIsPath(req.uri);
  }

  // ---- the type segment ----

  /**
   The segment that is read for the type is no longer than a type name in any request that
   reaches a handler, so it fits the 32 bytes that `parse_request` has for it.
   */
  lemma RoutedSegmentFits(m: DeviceMap, req: HttpRequest, target: Target)
    requires IsRouted(RouteTable(m), req, target)
    ensures |ScanUri(req.uri).typeName| <= 19
  {
    if IsDeviceTarget(target) {
      var e, k := RoutedOwner(m, req, target);
      DeviceRouteUri(e, k);
      PathResolves(e.device.Type(), e.number, EndpointsOf(e.device.cls)[k].name, req.uri);
      UriNameShape(e.device.Type());
    } else {
      ManagementSegment(m, req, target);
    }
  }

  lemma ManagementSegment(m: DeviceMap, req: HttpRequest, target: Target)
    requires IsRouted(RouteTable(m), req, target) && !IsDeviceTarget(target)
    ensures ScanUri(req.uri).typeName == ""
  {
    var r := Route(req.verb, PathOf(req.uri), target);
    DispatchSound(RouteTable(m), req.verb, PathOf(req.uri));
    NotADeviceRoute(Listing(m), r);
    assert r in MANAGEMENT;
    ManagementNoClash();
    PathStartsUri(req.uri);
  }

  lemma NotADeviceRoute(entries: seq<Entry>, r: Route)
    requires !IsDeviceTarget(r.target)
    ensures r !in RoutesOver(entries)
  {
    if r in RoutesOver(entries) {
      var e, k := RouteOwner(entries, r);
      assert false;
    }
  }

  lemma PathStartsUri(uri: string)
    requires '?' !in API_PREFIX
    ensures API_PREFIX <= PathOf(uri) <==> API_PREFIX <= uri
  {
    if API_PREFIX <= uri {
      assert forall i | 0 <= i < |API_PREFIX| :: uri[i] == API_PREFIX[i] != '?';
    }
  }

  lemma {:induction false} RouteIsListed(entries: seq<Entry>, e: Entry, k: nat)
    requires e in entries && k < |EndpointsOf(e.device.cls)|
    ensures DeviceRoute(e, k) in RoutesOver(entries)
  {
    if e == entries[0] {
      assert DeviceRoutes(e)[k] == DeviceRoute(e, k);
    } else {
      RouteIsListed(entries[1..], e, k);
    }
  }
}
