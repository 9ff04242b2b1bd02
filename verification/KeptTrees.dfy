/**
 Which requests leave their body tree behind, and how many: those that a handler refuses, told by
 the text of the request.
 */
module KeptTrees {
  import opened CText
  import opened Decimal
  import opened Devices
  import opened Endpoints
  import opened Addressing
  import opened Arguments
  import opened Handlers
  import opened Json
  import opened QueryPairs
  import opened Reading
  import opened Registry
  import opened Replies
  import opened Requests
  import opened Routes
  import opened Runs
  import opened Server
  import opened Uri

  /** A request to a device with too long a query, or a parameter missing or malformed. */
  ghost predicate IsRefused(env: Env, ev: Event) {
    && IsDeviceTarget(ev.target)
    && !(|QueryOf(ev.req.uri)| <= 512 && AllGiven(env, ev.req, ev.target.endpoint.params))
  }

  /** An error reply answers exactly these requests. */
  lemma RefusedGetErrors(env: Env, s: ServerState, ds: seq<Device>, evs: seq<Event>, k: nat)
    requires IsRegistryOf(s.devices, ds) && AllRouted(RouteTable(s.devices), evs) && k < |evs|
    ensures OutcomeIn(env, StateAt(env, s, evs, k), evs[k]).response.ErrorReply? <==> IsRefused(env, evs[k])
  {
    OutcomeAt(env, s, evs, k);
    if IsDeviceTarget(evs[k].target) {
      RoutedRun(env, s, ds, evs, k);
      RoutedArguments(env, s, ds, evs, k);
    } else {
      ManagementIsJson(env, StateAt(env, s, evs, k), evs[k]);
    }
  }

  lemma ManagementIsJson(env: Env, s: ServerState, ev: Event)
    requires !IsDeviceTarget(ev.target)
    ensures OutcomeIn(env, s, ev).response.JsonReply?
  {
  }

  // ---- which trees ----

  /** The body tree of the k-th request, if that request is refused. */
  ghost predicate IsKeptFor(env: Env, s: ServerState, evs: seq<Event>, k: nat, t: TreeId)
    requires k < |evs|
  {
    IsRefused(env, evs[k]) && t == StateAt(env, s, evs, k).next
  }

  /** Alive after a run is what was alive before and exactly the bodies of the refused requests. */
  lemma RefusedKeepTheirBodies(env: Env, s: ServerState, ds: seq<Device>, evs: seq<Event>, t: TreeId)
    requires IsRegistryOf(s.devices, ds) && AllRouted(RouteTable(s.devices), evs)
    ensures t in Run(env, s, evs).live <==>
            t in s.live || exists k: nat :: k < |evs| && IsKeptFor(env, s, evs, k, t)
  {
    forall k: nat | k < |evs|
      ensures KeepsBody(env, s, evs, k, t) <==> IsKeptFor(env, s, evs, k, t)
    {
      RefusedGetErrors(env, s, ds, evs, k);
    }
    LiveAfterRun(env, s, evs, t);
  }

  // ---- how many ----

  ghost function RefusedCount(env: Env, evs: seq<Event>): nat {
    if evs == [] then 0
    else
      var n := |evs| - 1;
      RefusedCount(env, evs[..n]) + if IsRefused(env, evs[n]) then 1 else 0
  }

  lemma TreesStepCounts(s: ServerState, s': ServerState, rooted: bool, json: bool)
    requires Owned(s) && TreesStep(s, s', rooted, json)
    ensures |s'.live| == |s.live| + if json then 0 else 1
  {
    assert s.next !in s.live;
  }

  lemma {:induction false} RefusedCountSnoc(env: Env, front: seq<Event>, ev: Event)
    ensures RefusedCount(env, front + [ev]) == RefusedCount(env, front) + if IsRefused(env, ev) then 1 else 0
  {
    assert (front + [ev])[..|front|] == front;
  }

  /** The heap grows by one tree with every refused request, and with no other. */
  lemma {:induction false} HeapGrows(env: Env, s: ServerState, ds: seq<Device>, evs: seq<Event>)
    requires IsRegistryOf(s.devices, ds) && AllRouted(RouteTable(s.devices), evs) && Owned(s)
    ensures |Run(env, s, evs).live| == |s.live| + RefusedCount(env, evs)
    decreases |evs|
  {
    if evs != [] {
      var front, ev := SplitLast(evs);
      var before := Run(env, s, front);
      HeapGrows(env, s, ds, front);
      RunOwned(env, s, front);
      RunSnoc(env, s, front, ev);
      StepIsTreesStep(env, before, ev);
      TreesStepCounts(before, Step(env, before, ev), HasRoot(ev, before.devices),
                      OutcomeIn(env, before, ev).response.JsonReply?);
      RefusedGetErrors(env, s, ds, evs, |front|);
      RefusedCountSnoc(env, front, ev);
    }
  }

  // ---- one such request ----

  const SLAVED: Endpoint := Put("slaved", [Param("Slaved", TrueOrFalse, true)])

  const SLAVE_DOME := "/api/v1/dome/0/slaved"

  /** The request to slave a dome that does not say whether. */
  const NO_VALUE := HttpRequest(PUT, SLAVE_DOME, 0, "", "")

  /** The place of the PUT "slaved" among the endpoints of a dome. */
  const PUT_SLAVED: nat := 26

  lemma SlavedIs()
    ensures |EndpointsOf(DomeClass)| == 37 && EndpointsOf(DomeClass)[PUT_SLAVED] == SLAVED
  {
    assert |COMMON| == 12 && |DOME_READINGS| == 12 && |DOME_MOTION| == 13;
    assert EndpointsOf(DomeClass)[PUT_SLAVED] == DOME[14] == DOME_MOTION[2];
  }

  lemma SlaveDomeIsPrinted()
    ensures RoutePath("dome", 0, "slaved") == SLAVE_DOME
  {
    assert IntText(ToInt32(0)) == "0";
    assert RoutePath("dome", 0, "slaved") == "/api/v1/" + "dome" + "/" + "0" + "/" + "slaved";
  }

  lemma NoValueHasNoText(req: HttpRequest, p: Param)
    requires req == NO_VALUE
    ensures PathOf(req.uri) == req.uri && QueryOf(req.uri) == []
    ensures FirstText(req, p.name, p.caseSensitive) == None
  {
    IndexIs(req.uri, '?', |req.uri|);
    NoPairs([]);
    assert CStr([]) == [];
  }

  lemma NoValueIsRouted(m: DeviceMap, req: HttpRequest)
    requires IsRegistryOf(m, Domes(1)) && req == NO_VALUE
    ensures IsRouted(RouteTable(m), req, Specific(DomeClass, SLAVED))
  {
    var e := Entry(0, ADome(0));
    AllDomes(Domes(1));
    ListedEntries(m, Domes(1), e);
    SlavedIs();
    SlaveDomeIsPrinted();
    NoValueHasNoText(req, SLAVED.params[0]);
    DeviceRouteUri(e, PUT_SLAVED);
    RoutedRequestFindsItsEntry(m, m, Domes(1), e, PUT_SLAVED, req);
  }

  /** A server with one dome that gets this request has one more tree alive than before. */
  lemma NoValueKeepsBody(env: Env, s: ServerState, ev: Event)
    requires IsRegistryOf(s.devices, Domes(1)) && Owned(s)
    requires ev.req == NO_VALUE && ev.target == Specific(DomeClass, SLAVED)
    ensures IsRouted(RouteTable(s.devices), ev.req, ev.target) && IsRefused(env, ev)
    ensures Step(env, s, ev).live == s.live + {s.next} && s.next !in s.live
  {
    NoValueIsRouted(s.devices, ev.req);
    NoValueHasNoText(ev.req, SLAVED.params[0]);
    assert !IsGiven(env, ev.req, ev.target.endpoint.params[0]);
    RefusedGetErrors(env, s, Domes(1), [ev], 0);
    StepIsTreesStep(env, s, ev);
  }
}
