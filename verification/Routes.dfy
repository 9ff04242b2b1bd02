/**
 The route table: three management routes, then the routes of every device in the order of the
 registry. The HTTP server refuses a second handler for the same method and URI.
 */
module Routes {
  import opened CText
  import opened Decimal
  import opened Devices
  import opened Endpoints
  import opened Registry
  import opened Uri

  /** What a route leads to. A handler of a class may downcast to it. */
  datatype Target =
    | ApiVersions
    | ServerDescription
    | ConfiguredDevices
    | Common(endpoint: Endpoint)
    | Specific(cls: DeviceClass, endpoint: Endpoint)

  datatype Route = Route(verb: Verb, uri: string, target: Target)

  const MANAGEMENT: seq<Route> := [
    Route(GET, "/management/apiversions", ApiVersions),
    Route(GET, "/management/v1/description", ServerDescription),
    Route(GET, "/management/v1/configureddevices", ConfiguredDevices)
  ]

  function CommonRoute(e: Entry, p: Endpoint): Route {
    Route(p.verb, RoutePath(UriName(e.device.Type()), e.number, p.name), Common(p))
  }

  function SpecificRoute(e: Entry, p: Endpoint): Route {
    Route(p.verb, RoutePath(SpecificPrefix(e.device.cls), e.number, p.name), Specific(e.device.cls, p))
  }

  /** The k-th route of a device. */
  function DeviceRoute(e: Entry, k: nat): Route
    requires k < |EndpointsOf(e.device.cls)|
  {
    var p := EndpointsOf(e.device.cls)[k];
    if k < |COMMON| then CommonRoute(e, p) else SpecificRoute(e, p)
  }

  function DeviceRoutes(e: Entry): seq<Route> {
    seq(|EndpointsOf(e.device.cls)|, k requires 0 <= k < |EndpointsOf(e.device.cls)| => DeviceRoute(e, k))
  }

  function RoutesOver(entries: seq<Entry>): seq<Route> {
    if entries == [] then [] else DeviceRoutes(entries[0]) + RoutesOver(entries[1..])
  }

  function RouteTable(m: DeviceMap): seq<Route> {
    MANAGEMENT + RoutesOver(Listing(m))
  }

  /** Every printed route fits the 128 bytes it is printed into, terminator included. */
  lemma RouteFits(e: Entry, k: nat)
    requires k < |EndpointsOf(e.device.cls)|
    ensures |DeviceRoute(e, k).uri| < 128
  {
    DeviceRouteUri(e, k);
    UriNameShape(e.device.Type());
    IntTextLength(ToInt32(e.number));
  }

  // ---- no two routes clash ----

  predicate Clash(r: Route, s: Route) {
    r.verb == s.verb && r.uri == s.uri
  }

  predicate NoClash(rs: seq<Route>) {
    forall i, j | 0 <= i < j < |rs| :: !Clash(rs[i], rs[j])
  }

  predicate NoClashBetween(rs: seq<Route>, ss: seq<Route>) {
    forall i, j | 0 <= i < |rs| && 0 <= j < |ss| :: !Clash(rs[i], ss[j])
  }

  lemma NoClashConcat(rs: seq<Route>, ss: seq<Route>)
    requires NoClash(rs) && NoClash(ss) && NoClashBetween(rs, ss)
    ensures NoClash(rs + ss)
  {
  }

  /** Every route of a device is printed from its type, its number and an endpoint. */
  lemma DeviceRouteUri(e: Entry, k: nat)
    requires k < |EndpointsOf(e.device.cls)|
    ensures var p := EndpointsOf(e.device.cls)[k];
            && DeviceRoute(e, k).verb == p.verb
            && DeviceRoute(e, k).uri == RoutePath(UriName(e.device.Type()), e.number, p.name)
  {
    PrefixIsUriName(e.device.cls);
  }

  /** A clash of device routes means the same type, the same number and the same endpoint. */
  lemma ClashMeans(e: Entry, k: nat, f: Entry, l: nat)
    requires k < |EndpointsOf(e.device.cls)| && l < |EndpointsOf(f.device.cls)|
    requires e.number < TWO32 && f.number < TWO32
    requires Clash(DeviceRoute(e, k), DeviceRoute(f, l))
    ensures e.device.cls == f.device.cls && e.number == f.number
    ensures !Differ(EndpointsOf(e.device.cls)[k], EndpointsOf(f.device.cls)[l])
  {
    DeviceRouteUri(e, k);
    DeviceRouteUri(f, l);
    UriNameShape(e.device.Type());
    UriNameShape(f.device.Type());
    RoutePathInjective(UriName(e.device.Type()), e.number, EndpointsOf(e.device.cls)[k].name,
                       UriName(f.device.Type()), f.number, EndpointsOf(f.device.cls)[l].name);
    UriNameReadsBack(e.device.Type());
    UriNameReadsBack(f.device.Type());
    TagTellsClass(e.device.cls, f.device.cls);
  }

  lemma OneDeviceNoClash(e: Entry)
    requires e.number < TWO32
    ensures NoClash(DeviceRoutes(e))
  {
    EndpointsDiffer(e.device.cls);
    forall i, j | 0 <= i < j < |EndpointsOf(e.device.cls)|
      ensures !Clash(DeviceRoute(e, i), DeviceRoute(e, j))
    {
      if Clash(DeviceRoute(e, i), DeviceRoute(e, j)) {
        ClashMeans(e, i, e, j);
      }
    }
  }

  lemma TwoDevicesNoClash(e: Entry, f: Entry)
    requires e.number < TWO32 && f.number < TWO32
    requires e.device.Type() != f.device.Type() || e.number != f.number
    ensures NoClashBetween(DeviceRoutes(e), DeviceRoutes(f))
  {
    forall i, j | 0 <= i < |EndpointsOf(e.device.cls)| && 0 <= j < |EndpointsOf(f.device.cls)|
      ensures !Clash(DeviceRoute(e, i), DeviceRoute(f, j))
    {
      if Clash(DeviceRoute(e, i), DeviceRoute(f, j)) {
        ClashMeans(e, i, f, j);
      }
    }
  }

  /** Vectors on a 32-bit machine have fewer than 2^32 elements. */
  predicate NumbersFit(entries: seq<Entry>) {
    forall i | 0 <= i < |entries| :: entries[i].number < TWO32
  }

  lemma {:induction false} OthersNoClash(e: Entry, entries: seq<Entry>)
    requires e.number < TWO32 && NumbersFit(entries)
    requires forall i | 0 <= i < |entries| ::
               e.device.Type() != entries[i].device.Type() || e.number != entries[i].number
    ensures NoClashBetween(DeviceRoutes(e), RoutesOver(entries))
  {
    if entries != [] {
      OthersNoClash(e, entries[1..]);
      TwoDevicesNoClash(e, entries[0]);
    }
  }

  lemma {:induction false} DevicesNoClash(entries: seq<Entry>)
    requires NumbersFit(entries) && EntriesDiffer(entries)
    ensures NoClash(RoutesOver(entries))
  {
    if entries != [] {
      DevicesNoClash(entries[1..]);
      OneDeviceNoClash(entries[0]);
      OthersNoClash(entries[0], entries[1..]);
      NoClashConcat(DeviceRoutes(entries[0]), RoutesOver(entries[1..]));
    }
  }

  lemma {:induction false} RoutesStartWithApi(entries: seq<Entry>)
    ensures forall i | 0 <= i < |RoutesOver(entries)| :: API_PREFIX <= RoutesOver(entries)[i].uri
  {
    if entries != [] {
      RoutesStartWithApi(entries[1..]);
      forall k | 0 <= k < |EndpointsOf(entries[0].device.cls)|
        ensures API_PREFIX <= DeviceRoute(entries[0], k).uri
      {
        DeviceRouteUri(entries[0], k);
        RoutePathSuffix(UriName(entries[0].device.Type()), entries[0].number, EndpointsOf(entries[0].device.cls)[k].name);
      }
    }
  }

  lemma ManagementNoClash()
    ensures NoClash(MANAGEMENT)
    ensures forall i | 0 <= i < |MANAGEMENT| :: !(API_PREFIX <= MANAGEMENT[i].uri)
  {
    forall i | 0 <= i < |MANAGEMENT|
      ensures !(API_PREFIX <= MANAGEMENT[i].uri)
    {
      assert MANAGEMENT[i].uri[1] == 'm' && API_PREFIX[1] == 'a';
    }
    assert |MANAGEMENT[0].uri| == 23 && |MANAGEMENT[1].uri| == 26 && |MANAGEMENT[2].uri| == 32;
  }

  /** Registration never collides: all (method, URI) pairs of the table are distinct. */
  lemma TableNoClash(m: DeviceMap, ds: seq<Device>)
    requires IsRegistryOf(m, ds) && |ds| < TWO32
    ensures NoClash(RouteTable(m))
  {
    ListingFits(m, ds);
    ListingDiffers(m, ds);
    DevicesNoClash(Listing(m));
    ManagementNoClash();
    RoutesStartWithApi(Listing(m));
    NoClashConcat(MANAGEMENT, RoutesOver(Listing(m)));
  }

  lemma ListingFits(m: DeviceMap, ds: seq<Device>)
    requires IsRegistryOf(m, ds) && |ds| < TWO32
    ensures NumbersFit(Listing(m))
  {
    forall i | 0 <= i < |Listing(m)|
      ensures Listing(m)[i].number < TWO32
    {
      var e := Listing(m)[i];
      ListedEntries(m, ds, e);
      OfTypeMembers(ds, e.device.Type());
    }
  }

  // ---- how many routes there are ----

  function EndpointCount(c: DeviceClass): nat {
    |EndpointsOf(c)|
  }

  /** The sum of a weight of classes over a list of devices. */
  function SumOver(ds: seq<Device>, weight: DeviceClass -> nat): nat {
    if ds == [] then 0 else weight(ds[0].cls) + SumOver(ds[1..], weight)
  }

  lemma {:induction false} SumConcat(a: seq<Device>, b: seq<Device>, weight: DeviceClass -> nat)
    ensures SumOver(a + b, weight) == SumOver(a, weight) + SumOver(b, weight)
  {
    if a == [] {
      assert a + b == b;
    } else {
      SumConcat(a[1..], b, weight);
      assert (a + b)[0] == a[0] && (a + b)[1..] == a[1..] + b;
    }
  }

  /** Taking one device out of a list. */
  lemma RemoveDevice(ds: seq<Device>, d: Device, weight: DeviceClass -> nat) returns (rest: seq<Device>)
    requires d in multiset(ds)
    ensures |rest| < |ds|
    ensures multiset(ds) == multiset(rest) + multiset{d}
    ensures SumOver(ds, weight) == SumOver(rest, weight) + weight(d.cls)
  {
    var i :| 0 <= i < |ds| && ds[i] == d;
    rest := ds[..i] + ds[i + 1..];
    assert ds == ds[..i] + ([d] + ds[i + 1..]);
    SumConcat(ds[..i], [d] + ds[i + 1..], weight);
    SumConcat(ds[..i], ds[i + 1..], weight);
    assert ([d] + ds[i + 1..])[1..] == ds[i + 1..];
  }

  lemma {:induction false} SumPermutes(a: seq<Device>, b: seq<Device>, weight: DeviceClass -> nat)
    requires multiset(a) == multiset(b)
    ensures SumOver(a, weight) == SumOver(b, weight)
    decreases |a|
  {
    if a == [] {
      assert |multiset(b)| == 0;
    } else {
      assert a[0] in multiset(a);
      var a' := RemoveDevice(a, a[0], weight);
      var b' := RemoveDevice(b, a[0], weight);
      assert multiset(a') == multiset(a) - multiset{a[0]} == multiset(b');
      SumPermutes(a', b', weight);
    }
  }

  /** The routes that a list of devices calls for. */
  function RouteCount(ds: seq<Device>): nat {
    SumOver(ds, EndpointCount)
  }

  lemma {:induction false} RoutesOverCount(entries: seq<Entry>)
    ensures |RoutesOver(entries)| == RouteCount(DevicesIn(entries))
  {
    if entries != [] {
      RoutesOverCount(entries[1..]);
      assert DevicesIn(entries)[1..] == DevicesIn(entries[1..]);
    }
  }

  /** Three management routes and, per device, twelve and those of its class. */
  lemma TableCount(m: DeviceMap, ds: seq<Device>)
    requires IsRegistryOf(m, ds)
    ensures |RouteTable(m)| == 3 + RouteCount(ds)
  {
    RoutesOverCount(Listing(m));
    ListingIsStableSort(m, ds);
    SumPermutes(DevicesIn(Listing(m)), ds, EndpointCount);
  }

  // ---- registration ----

  class HttpServer {
    var routes: seq<Route>

    constructor ()
      ensures routes == []
    {
      routes := [];
    }

    /** `httpd_register_uri_handler`; the table is as large as the configuration makes it. */
    method RegisterUriHandler(r: Route) returns (ok: bool)
      modifies this
      ensures ok <==> forall i | 0 <= i < |old(routes)| :: !Clash(old(routes)[i], r)
      ensures routes == if ok then old(routes) + [r] else old(routes)
    {
      ok := forall i | 0 <= i < |routes| :: !Clash(routes[i], r);
      if ok {
        routes := routes + [r];
      }
    }
  }

  /** All the routes are taken, so no call trips ESP_ERROR_CHECK. */
  method RegisterAll(server: HttpServer, rs: seq<Route>)
    requires NoClash(server.routes + rs)
    modifies server
    ensures server.routes == old(server.routes) + rs
  {
    ghost var before := server.routes;
    for i := 0 to |rs|
      invariant server.routes == before + rs[..i]
    {
      assert forall k | 0 <= k < |before + rs[..i]| :: (before + rs[..i])[k] == (before + rs)[k];
      assert (before + rs)[|before| + i] == rs[i];
      var ok := server.RegisterUriHandler(rs[i]);
      assert ok;
      assert rs[..i + 1] == rs[..i] + [rs[i]];
    }
    assert rs[..|rs|] == rs;
  }

  method RegisterDeviceRoutes(server: HttpServer, number: nat, device: Device)
    requires NoClash(server.routes + DeviceRoutes(Entry(number, device)))
    modifies server
    ensures server.routes == old(server.routes) + DeviceRoutes(Entry(number, device))
  {
    RegisterAll(server, DeviceRoutes(Entry(number, device)));
  }

  method RegisterRoutes(server: HttpServer, m: DeviceMap, ghost ds: seq<Device>)
    requires server.routes == [] && IsRegistryOf(m, ds) && |ds| < TWO32
    modifies server
    ensures server.routes == RouteTable(m)
  {
    TableNoClash(m, ds);
    var entries := ListDevices(m);
    assert NoClash(MANAGEMENT) by {
      ManagementNoClash();
    }
    assert server.routes + MANAGEMENT == MANAGEMENT;
    RegisterAll(server, MANAGEMENT);
    for i := 0 to |entries|
      invariant server.routes + RoutesOver(entries[i..]) == RouteTable(m)
    {
      var e := entries[i];
      RoutesOverStep(server.routes, entries, i);
      NoClashPrefix(server.routes + DeviceRoutes(e), RoutesOver(entries[i + 1..]));
      RegisterDeviceRoutes(server, e.number, e.device);
    }
  }

  lemma {:induction false} RoutesOverStep(before: seq<Route>, entries: seq<Entry>, i: nat)
    requires i < |entries|
    ensures before + RoutesOver(entries[i..])
         == before + DeviceRoutes(entries[i]) + RoutesOver(entries[i + 1..])
  {
    assert entries[i..][1..] == entries[i + 1..];
    var here, rest := DeviceRoutes(entries[i]), RoutesOver(entries[i + 1..]);
    assert before + (here + rest) == before + here + rest;
  }

  lemma NoClashPrefix(rs: seq<Route>, ss: seq<Route>)
    requires NoClash(rs + ss)
    ensures NoClash(rs)
  {
    assert forall i | 0 <= i < |rs| :: rs[i] == (rs + ss)[i];
  }

  // ---- dispatch ----

  /** The first route with the method and the path. */
  function Dispatch(rs: seq<Route>, verb: Verb, path: string): Option<Route> {
    if rs == [] then None
    else if rs[0].verb == verb && rs[0].uri == path then Some(rs[0])
    else Dispatch(rs[1..], verb, path)
  }

  /** Exactly the registered pairs are dispatched, each to its own route. */
  lemma {:induction false} DispatchFinds(rs: seq<Route>, r: Route)
    requires NoClash(rs)
    ensures Dispatch(rs, r.verb, r.uri) == Some(r) <==> r in rs
  {
    if rs != [] {
      assert NoClash(rs[1..]);
      DispatchFinds(rs[1..], r);
      assert rs == [rs[0]] + rs[1..];
      if r in rs[1..] {
        var i :| 0 <= i < |rs[1..]| && rs[1..][i] == r;
        assert !Clash(rs[0], rs[i + 1]);
      }
    }
  }

  lemma {:induction false} DispatchSound(rs: seq<Route>, verb: Verb, path: string)
    ensures var r := Dispatch(rs, verb, path);
            match r
            case Some(route) => route in rs && route.verb == verb && route.uri == path
            case None => forall s | s in rs :: s.verb != verb || s.uri != path
  {
    if rs != [] {
      DispatchSound(rs[1..], verb, path);
      assert rs == [rs[0]] + rs[1..];
    }
  }
}
