/**
 The whole server: started from a list of devices, given any requests. Whatever arrives, no device
 is ever called that the server was not started with, or as another class than its own.
 */
module Startup {
  import opened CText
  import opened Decimal
  import opened Devices
  import opened Endpoints
  import opened Addressing
  import opened Api
  import opened Arguments
  import opened Handlers
  import opened Json
  import opened KeptTrees
  import opened Listings
  import opened Reading
  import opened Registry
  import opened Replies
  import opened Requests
  import opened Routes
  import opened Runs
  import opened Server
  import opened Uri

  /** The registry is built and its routes are registered. */
  method Start(ds: seq<Device>) returns (api: Api, server: HttpServer)
    requires |ds| < TWO32
    ensures fresh(api) && fresh(api.heap) && fresh(server) && api.heap.Valid()
    ensures IsRegistryOf(api.devices, ds) && server.routes == RouteTable(api.devices)
    ensures Owned(api.State()) && api.State().counter == 0
    ensures api.State().live == {} && api.State().trace == []
  {
    var heap := new JsonHeap();
    api := new Api(ds, heap);
    server := new HttpServer();
    RegisterRoutes(server, api.devices, ds);
  }

  /** A request on the wire, and what the device will answer if it is called. */
  datatype Arrival = Arrival(req: HttpRequest, answer: Answer)

  /** The events of a list of arrivals: one that matches no route never reaches a handler. */
  function Delivered(rs: seq<Route>, arrivals: seq<Arrival>): seq<Event> {
    if arrivals == [] then []
    else
      var a := arrivals[0];
      (match Dispatch(rs, a.req.verb, PathOf(a.req.uri))
       case None => []
       case Some(r) => [Event(r.target, a.req, a.answer)])
      + Delivered(rs, arrivals[1..])
  }

  lemma {:induction false} DeliveredAreRouted(rs: seq<Route>, arrivals: seq<Arrival>)
    ensures AllRouted(rs, Delivered(rs, arrivals))
  {
    if arrivals != [] {
      DeliveredAreRouted(rs, arrivals[1..]);
      DispatchSound(rs, arrivals[0].req.verb, PathOf(arrivals[0].req.uri));
    }
  }

  lemma {:induction false} DeliveredConcat(rs: seq<Route>, a: seq<Arrival>, b: seq<Arrival>)
    ensures Delivered(rs, a + b) == Delivered(rs, a) + Delivered(rs, b)
  {
    if a == [] {
      assert a + b == b;
    } else {
      DeliveredConcat(rs, a[1..], b);
      assert (a + b)[0] == a[0] && (a + b)[1..] == a[1..] + b;
      var head := Delivered(rs, [a[0]]);
      DeliveredFirst(rs, a[0], a[1..]);
      DeliveredFirst(rs, a[0], a[1..] + b);
      assert a == [a[0]] + a[1..] && a + b == [a[0]] + (a[1..] + b);
      Assoc(head, Delivered(rs, a[1..]), Delivered(rs, b));
    }
  }

  lemma DeliveredFirst(rs: seq<Route>, a: Arrival, rest: seq<Arrival>)
    ensures Delivered(rs, [a] + rest) == Delivered(rs, [a]) + Delivered(rs, rest)
  {
    assert ([a] + rest)[1..] == rest && [a][1..] == [];
    assert Delivered(rs, []) == [];
  }

  /** An arrival whose method and path are those of a registered route becomes an event for it. */
  lemma MatchIsDelivered(rs: seq<Route>, a: Arrival, r: Route)
    requires NoClash(rs) && r in rs && r.verb == a.req.verb && r.uri == PathOf(a.req.uri)
    ensures Delivered(rs, [a]) == [Event(r.target, a.req, a.answer)]
  {
    DispatchFinds(rs, r);
    assert [a][1..] == [];
  }

  lemma OthersAreNotDelivered(rs: seq<Route>, a: Arrival)
    requires forall r | r in rs :: r.verb != a.req.verb || r.uri != PathOf(a.req.uri)
    ensures Delivered(rs, [a]) == []
  {
    DispatchSound(rs, a.req.verb, PathOf(a.req.uri));
    assert [a][1..] == [];
  }

  /** The i-th arrival, if it matches, is delivered behind those that were delivered before it. */
  lemma ArrivalIsDelivered(rs: seq<Route>, arrivals: seq<Arrival>, i: nat, r: Route)
    requires NoClash(rs) && i < |arrivals|
    requires r in rs && r.verb == arrivals[i].req.verb && r.uri == PathOf(arrivals[i].req.uri)
    ensures var k := |Delivered(rs, arrivals[..i])|;
            && k < |Delivered(rs, arrivals)|
            && Delivered(rs, arrivals)[k] == Event(r.target, arrivals[i].req, arrivals[i].answer)
  {
    var a := arrivals[i];
    assert arrivals == arrivals[..i] + ([a] + arrivals[i + 1..]);
    DeliveredConcat(rs, arrivals[..i], [a] + arrivals[i + 1..]);
    DeliveredConcat(rs, [a], arrivals[i + 1..]);
    MatchIsDelivered(rs, a, r);
  }

  // ---- every call is safe ----

  /** The device is one that the server was started with, and is used as what it is. */
  predicate IsSafeCall(ds: seq<Device>, call: DeviceCall) {
    && call.device in ds
    && (call.castTo.Some? ==> call.device.cls == call.castTo.value)
  }

  predicate IsSafeTrace(ds: seq<Device>, trace: seq<DeviceCall>) {
    forall c | c in trace :: IsSafeCall(ds, c)
  }

  /** Neither "not found" nor "not implemented" reaches a client on a device route. */
  ghost predicate IsSafeOutcome(env: Env, ds: seq<Device>, s: ServerState, ev: Event, o: Outcome) {
    && (o.call.Some? ==> IsSafeCall(ds, o.call.value))
    && (IsDeviceTarget(ev.target) ==>
          || o.response == ErrorReply(400)
          || o.response == JsonReply(AnswerItems(env, ev.target.endpoint, ev.answer) + IdItems(ParsedOf(ev.req, s.counter))))
  }

  lemma SafeStep(env: Env, m: DeviceMap, ds: seq<Device>, s: ServerState, ev: Event)
    requires IsRegistryOf(m, ds) && SameDevices(m, s.devices)
    requires IsRouted(RouteTable(m), ev.req, ev.target)
    ensures IsSafeOutcome(env, ds, s, ev, OutcomeIn(env, s, ev))
  {
    if IsDeviceTarget(ev.target) {
      RoutedOutcome(env, s, m, ds, ev);
      if IsAccepted(env, ev) {
        var p := ParsedOf(ev.req, s.counter);
        RegistryTags(m, ds, p.deviceType, p.deviceNumber);
      }
    }
  }

  lemma SafeMore(ds: seq<Device>, s: ServerState, s': ServerState, o: Outcome)
    requires IsSafeTrace(ds, s.trace) && (o.call.Some? ==> IsSafeCall(ds, o.call.value))
    requires s'.trace == if o.call.Some? then s.trace + [o.call.value] else s.trace
    ensures IsSafeTrace(ds, s'.trace)
  {
  }

  /** In every run of routed requests, every call of a device is safe. */
  lemma {:induction false} RunIsSafe(env: Env, s: ServerState, ds: seq<Device>, evs: seq<Event>)
    requires IsRegistryOf(s.devices, ds) && AllRouted(RouteTable(s.devices), evs)
    requires IsSafeTrace(ds, s.trace)
    ensures IsSafeTrace(ds, Run(env, s, evs).trace)
    decreases |evs|
  {
    if evs != [] {
      var front, ev := SplitLast(evs);
      RunIsSafe(env, s, ds, front);
      RunSnoc(env, s, front, ev);
      RunKeepsDevices(env, s, front);
      var before := Run(env, s, front);
      SafeStep(env, s.devices, ds, before, ev);
      StepTrace(env, before, ev);
      SafeMore(ds, before, Step(env, before, ev), OutcomeIn(env, before, ev));
    }
  }

  /**
   From the list of devices to the calls: after any requests whatever, everything that was called
   is a device of the list, used as what it is.
   */
  lemma ServerIsSafe(env: Env, s: ServerState, ds: seq<Device>, arrivals: seq<Arrival>)
    requires IsRegistryOf(s.devices, ds) && s.trace == []
    ensures IsSafeTrace(ds, Run(env, s, Delivered(RouteTable(s.devices), arrivals)).trace)
  {
    DeliveredAreRouted(RouteTable(s.devices), arrivals);
    RunIsSafe(env, s, ds, Delivered(RouteTable(s.devices), arrivals));
  }

  /** And every request that reaches a device route gets 400 or the answer to its call. */
  lemma ReplyIsSafe(env: Env, s: ServerState, ds: seq<Device>, arrivals: seq<Arrival>, k: nat)
    requires IsRegistryOf(s.devices, ds) && k < |Delivered(RouteTable(s.devices), arrivals)|
    ensures var evs := Delivered(RouteTable(s.devices), arrivals);
            var before := StateAt(env, s, evs, k);
            IsSafeOutcome(env, ds, before, evs[k], OutcomeIn(env, before, evs[k]))
  {
    var evs := Delivered(RouteTable(s.devices), arrivals);
    DeliveredAreRouted(RouteTable(s.devices), arrivals);
    RunKeepsDevices(env, s, evs[..k]);
    SafeStep(env, s.devices, ds, StateAt(env, s, evs, k), evs[k]);
  }

  lemma {:induction false} DeliveredDeliverable(rs: seq<Route>, arrivals: seq<Arrival>)
    requires forall i | 0 <= i < |arrivals| :: IsDeliverable(arrivals[i].req)
    ensures forall k | 0 <= k < |Delivered(rs, arrivals)| :: IsDeliverable(Delivered(rs, arrivals)[k].req)
  {
    if arrivals != [] {
      DeliveredDeliverable(rs, arrivals[1..]);
    }
  }

  // ---- what each request comes to ----

  /** The handler of the k-th endpoint of a class, asked for the n-th device of that class. */
  ghost predicate IsCallOf(env: Env, ds: seq<Device>, ev: Event, c: DeviceClass, n: nat, k: nat, call: DeviceCall) {
    && k < |EndpointsOf(c)| && AsksFor(ev.req, c, n, EndpointsOf(c)[k]) && ev.target == TargetFor(c, k)
    && n < |OfType(ds, TypeOfClass(c))| && call.device == Reached(ds, c, n)
    && call.device.cls == c && call.castTo == (if k < 12 then None else Some(c))
    && call.endpoint == EndpointsOf(c)[k]
    && AreArguments(env, ev.req, EndpointsOf(c)[k].params, call.args)
  }

  /** The reply with nothing in it but the answer and the ids. */
  ghost predicate IsAnswer(env: Env, ev: Event, id: int, o: Outcome)
    requires IsDeviceTarget(ev.target)
  {
    && o.response.JsonReply?
    && SaysIds(o.response.items, IdNumber(ev.req, "ClientTransactionID"), id)
    && SaysAnswer(env, ev.target.endpoint, ev.answer, o.response.items)
    && |o.response.items| == (if ev.answer.err != 0 then 4 else if ev.target.endpoint.returnsValue then 3 else 2)
  }

  ghost predicate IsManagementReply(env: Env, m: DeviceMap, ev: Event, id: int, o: Outcome)
    requires !IsDeviceTarget(ev.target)
  {
    && ev.req.verb == GET && PathOf(ev.req.uri) == ManagementPath(ev.target)
    && o.call == None && o.response.JsonReply? && |o.response.items| == 3
    && SaysIds(o.response.items, IdNumber(ev.req, "ClientTransactionID"), id)
    && var value := FindItem(o.response.items, "Value");
       value.Some? && IsManagementValue(env, ev.target, m, value.value)
  }

  /**
   The promise for one request, with the id that it gets, in terms of what arrived. A management
   request gets its value. A device request is refused without a call, or the device under its
   path is called with the arguments in its text and the reply is the answer.
   */
  ghost predicate IsPromised(env: Env, ds: seq<Device>, m: DeviceMap, ev: Event, id: int, o: Outcome) {
    if !IsDeviceTarget(ev.target) then IsManagementReply(env, m, ev, id, o)
    else if IsRefused(env, ev) then o == Outcome(ErrorReply(400), None)
    else
      && o.call.Some? && (exists c, n, k :: IsCallOf(env, ds, ev, c, n, k, o.call.value))
      && IsAnswer(env, ev, id, o)
  }

  lemma ManagementReplies(env: Env, s: ServerState, ds: seq<Device>, ev: Event)
    requires IsRegistryOf(s.devices, ds) && |ds| < TWO32
    requires IsRouted(RouteTable(s.devices), ev.req, ev.target) && !IsDeviceTarget(ev.target)
    ensures IsManagementReply(env, s.devices, ev, ToInt32(NextId(s.counter)), OutcomeIn(env, s, ev))
  {
    ManagementPaths(s.devices, ds, ev.req, ev.target);
    ManagementOutcome(env, s, ev);
    ManagementSays(env, ev.target, s.devices);
    ReadsIds(ev.req);
    ValueReply(ManagementValue(env, ev.target, s.devices), ParsedOf(ev.req, s.counter));
  }

  lemma ValueReply(value: Json, p: Parsed)
    ensures var items := [Item("Value", value)] + IdItems(p);
            FindItem(items, "Value") == Some(value) && SaysIds(items, p.fields.clientTransactionId, p.serverTransactionId)
  {
    assert |"Value"| == 5;
    ValueHolds(value, "Value");
    ValueHolds(value, "ClientTransactionID");
    ValueHolds(value, "ServerTransactionID");
    FindInConcat([Item("Value", value)], IdItems(p), "Value");
    IdsBehind([Item("Value", value)], p);
  }

  lemma PromisedToManagement(env: Env, s: ServerState, ds: seq<Device>, evs: seq<Event>, k: nat)
    requires IsRegistryOf(s.devices, ds) && |ds| < TWO32 && AllRouted(RouteTable(s.devices), evs)
    requires k < |evs| && !IsDeviceTarget(evs[k].target)
    ensures |Outcomes(env, s, evs)| == |evs|
    ensures IsPromised(env, ds, s.devices, evs[k], ToInt32(NextId(StateAt(env, s, evs, k).counter)), Outcomes(env, s, evs)[k])
  {
    OutcomeAt(env, s, evs, k);
    RunKeepsDevices(env, s, evs[..k]);
    SameRegistry(s.devices, StateAt(env, s, evs, k).devices, ds);
    ManagementReplies(env, StateAt(env, s, evs, k), ds, evs[k]);
  }

  /** The call of a routed request, by its path. */
  lemma CallByPath(env: Env, m: DeviceMap, ds: seq<Device>, ev: Event, p: Parsed, call: DeviceCall)
    requires IsRegistryOf(m, ds) && |ds| < TWO32
    requires IsRouted(RouteTable(m), ev.req, ev.target) && IsDeviceTarget(ev.target)
    requires p.deviceNumber == ScanUri(ev.req.uri).number && p.deviceType == TypeOfUriName(ScanUri(ev.req.uri).typeName)
    requires CallsAsRouted(env, m, ev, p, call)
    requires AreArguments(env, ev.req, ev.target.endpoint.params, call.args)
    ensures exists c, n, k :: IsCallOf(env, ds, ev, c, n, k, call)
  {
    var c, n, k := RoutedAsksFor(m, ds, ev.req, ev.target);
    PathResolves(TypeOfClass(c), n, EndpointsOf(c)[k].name, ev.req.uri);
    assert DevicesOf(m, p.deviceType) == OfType(ds, p.deviceType);
    RegistryTags(m, ds, p.deviceType, p.deviceNumber);
    TagTellsClass(call.device.cls, c);
    assert IsCallOf(env, ds, ev, c, n, k, call);
  }

  /** The reply of a routed request, by its text. */
  lemma AnswerByText(env: Env, ev: Event, p: Parsed, o: Outcome)
    requires IsDeviceTarget(ev.target) && p.fields == FieldsOf(ev.req)
    requires o.response == JsonReply(AnswerItems(env, ev.target.endpoint, ev.answer) + IdItems(p))
    ensures IsAnswer(env, ev, p.serverTransactionId, o)
  {
    ReplySays(env, ev.target.endpoint, ev.answer, p);
    ReadsIds(ev.req);
  }

  lemma PromisedToDevices(env: Env, s: ServerState, ds: seq<Device>, evs: seq<Event>, k: nat)
    requires IsRegistryOf(s.devices, ds) && |ds| < TWO32 && AllRouted(RouteTable(s.devices), evs)
    requires k < |evs| && IsDeviceTarget(evs[k].target)
    ensures |Outcomes(env, s, evs)| == |evs|
    ensures IsPromised(env, ds, s.devices, evs[k], ToInt32(NextId(StateAt(env, s, evs, k).counter)), Outcomes(env, s, evs)[k])
  {
    RoutedRun(env, s, ds, evs, k);
    RoutedArguments(env, s, ds, evs, k);
    var ev, o := evs[k], Outcomes(env, s, evs)[k];
    var p := ParsedOf(ev.req, StateAt(env, s, evs, k).counter);
    if !IsRefused(env, ev) {
      CallByPath(env, s.devices, ds, ev, p, o.call.value);
      AnswerByText(env, ev, p, o);
    }
  }

  lemma SameRegistry(m: DeviceMap, m': DeviceMap, ds: seq<Device>)
    requires IsRegistryOf(m, ds) && SameDevices(m, m')
    ensures IsRegistryOf(m', ds) && Listing(m') == Listing(m) && RouteTable(m') == RouteTable(m)
  {
    forall t
      ensures DevicesOf(m', t) == OfType(ds, t)
    {
      assert DevicesOf(m, t) == DevicesOf(m', t);
    }
    SameDevicesSameList(m, m', ALL_TYPES);
  }

  lemma SamePromise(env: Env, ds: seq<Device>, m: DeviceMap, m': DeviceMap, ev: Event, id: int, o: Outcome)
    requires IsRegistryOf(m, ds) && SameDevices(m, m')
    requires IsPromised(env, ds, m, ev, id, o)
    ensures IsPromised(env, ds, m', ev, id, o)
  {
    SameRegistry(m, m', ds);
  }

  /** All the promises of a run that starts with the counter at 0, seen from its end. */
  ghost predicate AllPromised(env: Env, ds: seq<Device>, m: DeviceMap, evs: seq<Event>, os: seq<Outcome>) {
    && |os| == |evs|
    && forall k | 0 <= k < |evs| :: IsPromised(env, ds, m, evs[k], ToInt32(CountedOn(0, k + 1)), os[k])
  }

  lemma RunKeepsPromises(env: Env, s: ServerState, ds: seq<Device>, evs: seq<Event>)
    requires IsRegistryOf(s.devices, ds) && |ds| < TWO32 && AllRouted(RouteTable(s.devices), evs) && s.counter == 0
    ensures AllPromised(env, ds, Run(env, s, evs).devices, evs, Outcomes(env, s, evs))
  {
    OutcomesLength(env, s, evs);
    RunKeepsDevices(env, s, evs);
    forall k | 0 <= k < |evs|
      ensures IsPromised(env, ds, Run(env, s, evs).devices, evs[k], ToInt32(CountedOn(0, k + 1)), Outcomes(env, s, evs)[k])
    {
      CounterAt(env, s, evs, k);
      NextCounted(0, k);
      if IsDeviceTarget(evs[k].target) {
        PromisedToDevices(env, s, ds, evs, k);
      } else {
        PromisedToManagement(env, s, ds, evs, k);
      }
      SamePromise(env, ds, s.devices, Run(env, s, evs).devices, evs[k], ToInt32(CountedOn(0, k + 1)), Outcomes(env, s, evs)[k]);
    }
  }

  // ---- the whole server ----

  /** What a server with registry, counter, trace and heap as given has done with its requests. */
  ghost predicate HasServed(env: Env, ds: seq<Device>, evs: seq<Event>, r: ServerState, os: seq<Outcome>) {
    && IsRegistryOf(r.devices, ds)
    && AllPromised(env, ds, r.devices, evs, os)
    && r.trace == CallsOf(os)
    && r.counter == CountedOn(0, |evs|)
    && Owned(r) && |r.live| == RefusedCount(env, evs)
  }

  lemma RunHasServed(env: Env, s: ServerState, ds: seq<Device>, evs: seq<Event>)
    requires IsRegistryOf(s.devices, ds) && |ds| < TWO32 && AllRouted(RouteTable(s.devices), evs)
    requires s.trace == [] && s.counter == 0 && s.live == {} && Owned(s)
    ensures HasServed(env, ds, evs, Run(env, s, evs), Outcomes(env, s, evs))
    ensures RouteTable(Run(env, s, evs).devices) == RouteTable(s.devices)
  {
    RunKeepsDevices(env, s, evs);
    SameRegistry(s.devices, Run(env, s, evs).devices, ds);
    RunKeepsPromises(env, s, ds, evs);
    RunTrace(env, s, evs);
    assert [] + CallsOf(Outcomes(env, s, evs)) == CallsOf(Outcomes(env, s, evs));
    RunCounts(env, s, evs);
    CounterAfterSum(0, evs);
    RunOwned(env, s, evs);
    HeapGrows(env, s, ds, evs);
  }

  /**
   The server started and given any requests. Those that match no route reach no handler. For each
   of the others, `os` says what it came to, as promised: the replies are theirs, the calls made
   are theirs in order, each took one id, and one tree is alive for each refused request.
   */
  method StartAndServe(env: Env, ds: seq<Device>, arrivals: seq<Arrival>)
    returns (api: Api, server: HttpServer, resps: seq<Response>, ghost os: seq<Outcome>)
    requires |ds| < TWO32
    requires forall i | 0 <= i < |arrivals| :: IsDeliverable(arrivals[i].req)
    ensures fresh(api) && fresh(api.heap) && api.heap.Valid()
    ensures server.routes == RouteTable(api.devices)
    ensures HasServed(env, ds, Delivered(server.routes, arrivals), api.State(), os)
    ensures resps == ResponsesOf(os)
    ensures IsSafeTrace(ds, api.trace)
  {
    api, server := Start(ds);
    var evs := Delivered(server.routes, arrivals);
    DeliveredAreRouted(server.routes, arrivals);
    DeliveredDeliverable(server.routes, arrivals);
    RunHasServed(env, api.State(), ds, evs);
    ServerIsSafe(env, api.State(), ds, arrivals);
    os := Outcomes(env, api.State(), evs);
    resps := api.Serve(env, evs);
  }
}
