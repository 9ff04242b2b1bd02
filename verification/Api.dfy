/**
 The `Api` object: the registry, the transaction counter and the handlers that work on them. Each
 method is proved against the functions of Requests, Handlers and Server.
 */
module Api {
  import opened CText
  import opened Decimal
  import opened Devices
  import opened Endpoints
  import opened Handlers
  import opened Json
  import opened Merge
  import opened QueryPairs
  import opened Registry
  import opened Requests
  import opened RequestText
  import opened Routes
  import opened Runs
  import opened Server
  import opened Uri

  /** The request object as a value. */
  ghost function Snapshot(req: AlpacaRequest, heap: JsonHeap): Parsed
    requires req.body in heap.trees
    reads req, heap
  {
    Parsed(req.State(heap), req.serverTransactionId, req.deviceNumber, req.deviceType)
  }

  /** A text copied into a fresh buffer with a terminator behind it, then scanned. */
  method ScanCopy(req: AlpacaRequest, heap: JsonHeap, text: string, size: nat, caseSensitive: bool)
    requires |text| < size
    requires heap.Valid() && req.body in heap.trees
    modifies heap`trees, req`clientId, req`clientTransactionId
    ensures heap.Valid() && req.body in heap.trees
    ensures req.State(heap) == ApplyPairs(old(req.State(heap)), ParsePairs(CStr(text)), caseSensitive)
    ensures heap.trees == old(heap.trees)[req.body := heap.trees[req.body]]
  {
    var buf := new char[size](i => if 0 <= i < |text| then text[i] else NUL);
    assert buf[|text|] == NUL;
    CopyReads(buf[..], text);
    ghost var _ := ParseString(req, heap, buf, caseSensitive);
  }

  lemma {:induction false} CopyReads(b: seq<char>, text: string)
    requires |text| < |b| && b[|text|] == NUL
    requires forall i | 0 <= i < |text| :: b[i] == text[i]
    ensures NUL in b && CStr(b) == CStr(text)
  {
    var n := Index(text, NUL);
    IndexIs(b, NUL, n);
    assert b[..n] == text[..n];
  }

  class Api {
    var devices: DeviceMap
    var serverTransactionId: nat
    var trace: seq<DeviceCall>
    const heap: JsonHeap

    ghost function State(): ServerState
      reads this, heap
    {
      ServerState(devices, serverTransactionId, heap.next, heap.trees.Keys, heap.freed, trace)
    }

    constructor (devices: seq<Device>, heap: JsonHeap)
      ensures this.heap == heap
      ensures IsRegistryOf(this.devices, devices)
      ensures serverTransactionId == 0 && trace == []
    {
      var m := Group(devices);
      this.devices, this.heap := m, heap;
      serverTransactionId, trace := 0, [];
    }

    /** The id is taken before anything can be refused. */
    method TakeId() returns (id: int)
      modifies `serverTransactionId
      ensures serverTransactionId == NextId(old(serverTransactionId))
      ensures id == ToInt32(serverTransactionId)
    {
      serverTransactionId := Wrap32(serverTransactionId + 1);
      id := ToInt32(serverTransactionId);
    }

    /** The part of `parse_request` that cannot fail: a new body, the URI and the id. */
    method Begin(req: HttpRequest, parsed: AlpacaRequest)
      requires heap.Valid()
      modifies `serverTransactionId, heap, parsed
      ensures heap.Valid() && parsed.body == old(heap.next)
      ensures heap.trees == old(heap.trees)[parsed.body := []]
      ensures heap.trees.Keys == old(heap.trees.Keys) + {parsed.body} && parsed.body !in old(heap.trees)
      ensures heap.next == old(heap.next) + 1 && heap.freed == old(heap.freed)
      ensures parsed.State(heap) == NO_FIELDS
      ensures var u := ScanUri(req.uri);
              parsed.deviceNumber == u.number && parsed.deviceType == TypeOfUriName(u.typeName)
      ensures serverTransactionId == NextId(old(serverTransactionId))
      ensures parsed.serverTransactionId == ToInt32(serverTransactionId)
    {
      parsed.body := heap.CreateObject();
      parsed.clientId, parsed.clientTransactionId := 0, 0;
      var u := ScanUri(req.uri);
      parsed.deviceNumber := u.number;
      parsed.deviceType := TypeOfUriName(u.typeName);
      parsed.serverTransactionId := TakeId();
    }

    method ParseRequest(req: HttpRequest, parsed: AlpacaRequest) returns (status: Status)
      requires heap.Valid() && IsDeliverable(req)
      modifies `devices, `serverTransactionId, heap, parsed
      ensures heap.Valid() && parsed.body == old(heap.next)
      ensures heap.trees == old(heap.trees)[parsed.body := FieldsOf(req).body]
      ensures heap.trees.Keys == old(heap.trees.Keys) + {parsed.body} && parsed.body !in old(heap.trees)
      ensures heap.next == old(heap.next) + 1 && heap.freed == old(heap.freed)
      ensures Snapshot(parsed, heap) == ParsedOf(req, old(serverTransactionId))
      ensures status == StatusOf(req, old(devices))
      ensures devices == DevicesAfter(req, old(devices))
      ensures serverTransactionId == NextId(old(serverTransactionId))
    {
      Begin(req, parsed);
      var query := QueryOf(req.uri);
      if |query| > MAX_QUERY {
        return InvalidSize;
      }
      ReadTexts(req, query, parsed);
      UpdateTwice(old(heap.trees), parsed.body, [], FieldsOf(req).body);
      status := FindDevice(parsed);
    }

    /** The lookup at the end of `parse_request`, which inserts an entry for a missing type. */
    method FindDevice(parsed: AlpacaRequest) returns (status: Status)
      modifies `devices
      ensures devices == if parsed.deviceType == Unknown then old(devices) else Touch(old(devices), parsed.deviceType)
      ensures status == if parsed.deviceType == Unknown
                           || parsed.deviceNumber >= |DevicesOf(old(devices), parsed.deviceType)| then NotFound else OK
    {
      if parsed.deviceType == Unknown {
        return NotFound;
      }
      devices := Touch(devices, parsed.deviceType);
      if parsed.deviceNumber >= |devices[parsed.deviceType]| {
        return NotFound;
      }
      return OK;
    }

    /** The two scans: the query, then the form. */
    method ReadTexts(req: HttpRequest, query: string, parsed: AlpacaRequest)
      requires heap.Valid() && parsed.body in heap.trees && parsed.State(heap) == NO_FIELDS
      requires IsDeliverable(req) && query == QueryOf(req.uri) && |query| <= MAX_QUERY
      modifies heap`trees, parsed`clientId, parsed`clientTransactionId
      ensures heap.Valid() && parsed.body in heap.trees
      ensures parsed.State(heap) == FieldsOf(req)
      ensures heap.trees == old(heap.trees)[parsed.body := FieldsOf(req).body]
      ensures heap.trees.Keys == old(heap.trees.Keys)
    {
      if |query| > 0 && query[0] != NUL {
        ScanCopy(parsed, heap, query, MAX_QUERY + 1, false);
      } else {
        NothingToScan(query);
      }
      ghost var afterQuery := heap.trees;
      if HasForm(req) {
        ScanCopy(parsed, heap, req.received, BODY_BUFFER, true);
        UpdateTwice(old(heap.trees), parsed.body, afterQuery[parsed.body], heap.trees[parsed.body]);
      }
    }

    // ---- replies ----

    /** Append the ids, print, release the root and then the body. */
    method SendJson(parsed: AlpacaRequest, root: TreeId) returns (resp: Response)
      requires heap.Valid() && root in heap.trees && parsed.body in heap.trees && root != parsed.body
      modifies heap
      ensures heap.Valid()
      ensures resp == JsonReply(old(heap.trees[root]) + IdItems(old(Snapshot(parsed, heap))))
      ensures heap.trees.Keys == old(heap.trees.Keys) - {root, parsed.body}
      ensures heap.freed == old(heap.freed) + [root, parsed.body] && heap.next == old(heap.next)
    {
      heap.Add(root, Item("ClientTransactionID", Number(parsed.clientTransactionId as real)));
      heap.Add(root, Item("ServerTransactionID", Number(parsed.serverTransactionId as real)));
      resp := JsonReply(heap.trees[root]);
      heap.Delete(root);
      heap.Delete(parsed.body);
    }

    method SetError(root: TreeId, env: Env, err: int)
      requires heap.Valid() && root in heap.trees
      modifies heap`trees
      ensures heap.Valid()
      ensures heap.trees == old(heap.trees)[root := old(heap.trees[root]) + ErrorItems(env, err)]
    {
      var text := env.message(err % 0x1_0000);
      heap.Add(root, Item("ErrorNumber", Number(err as real)));
      heap.Add(root, Item("ErrorMessage", Text(if text.Some? then text.value else "Unknown error")));
      assert heap.trees[root] == old(heap.trees[root]) + ErrorItems(env, err);
    }

    /** `check_return`: an error goes into the reply, success leaves the reply to the caller. */
    method CheckReturn(root: TreeId, env: Env, err: int) returns (good: bool)
      requires heap.Valid() && root in heap.trees
      modifies heap`trees
      ensures heap.Valid()
      ensures good == (err == 0)
      ensures heap.trees == if good then old(heap.trees)
                            else old(heap.trees)[root := old(heap.trees[root]) + ErrorItems(env, err)]
    {
      good := err == 0;
      if !good {
        SetError(root, env, err);
      }
    }

    // ---- handlers ----

    method ManagementJson(env: Env, target: Target) returns (value: Json)
      requires !IsDeviceTarget(target)
      ensures value == ManagementValue(env, target, devices)
    {
      match target {
        case ApiVersions => value := List([Number(1.0)]);
        case ServerDescription => value := Object(DescriptionItems(env.description));
        case ConfiguredDevices =>
          var entries := ListDevices(devices);
          value := List(ListingJson(env, entries));
      }
    }

    method HandleManagement(env: Env, ev: Event) returns (resp: Response)
      requires heap.Valid() && IsDeliverable(ev.req) && !IsDeviceTarget(ev.target)
      modifies this, heap
      ensures heap.Valid()
      ensures State() == Step(env, old(State()), ev)
      ensures resp == OutcomeIn(env, old(State()), ev).response
    {
      var parsed := new AlpacaRequest();
      var _ := ParseRequest(ev.req, parsed);
      var root := heap.CreateObject();
      assert root == old(heap.next) + 1;
      var value := ManagementJson(env, ev.target);
      ManagementValueAfter(env, ev.target, ev.req, old(devices));
      resp := SendValue(parsed, root, value);
      BackToBefore(old(heap.trees.Keys), parsed.body, root);
      ManagementOutcome(env, old(State()), ev);
    }

    /** A reply with nothing but a value. */
    method SendValue(parsed: AlpacaRequest, root: TreeId, value: Json) returns (resp: Response)
      requires heap.Valid() && parsed.body in heap.trees && root in heap.trees && root != parsed.body
      requires heap.trees[root] == []
      modifies heap
      ensures heap.Valid() && heap.next == old(heap.next)
      ensures resp == JsonReply([Item("Value", value)] + IdItems(old(Snapshot(parsed, heap))))
      ensures heap.trees.Keys == old(heap.trees.Keys) - {root, parsed.body}
      ensures heap.freed == old(heap.freed) + [root, parsed.body]
    {
      heap.Add(root, Item("Value", value));
      assert heap.trees[root] == [Item("Value", value)];
      resp := SendJson(parsed, root);
    }

    /** What a device handler does between the creation of the root and its return. */
    method Respond(env: Env, ev: Event, parsed: AlpacaRequest, root: TreeId, device: Device) returns (resp: Response)
      requires heap.Valid() && IsDeviceTarget(ev.target)
      requires root in heap.trees && parsed.body in heap.trees && root != parsed.body && heap.trees[root] == []
      modifies `trace, heap
      ensures heap.Valid() && heap.next == old(heap.next)
      ensures var o := DeviceOutcome(env, ev.target, old(Snapshot(parsed, heap)), device, ev.answer);
              && resp == o.response
              && trace == (if o.call.Some? then old(trace) + [o.call.value] else old(trace))
      ensures heap.trees.Keys == old(heap.trees.Keys) - (if resp.JsonReply? then {root, parsed.body} else {root})
      ensures heap.freed == old(heap.freed) + (if resp.JsonReply? then [root, parsed.body] else [root])
    {
      var p := ev.target.endpoint;
      if TypeMatches(ev.target, parsed.deviceType) {
        var args := ReadParams(env, p.params, heap.trees[parsed.body]);
        if args.None? {
          heap.Delete(root);
          return ErrorReply(400);
        }
        trace := trace + [DeviceCall(device, CastOf(ev.target), p, args.value)];
        Answered(env, p, root, ev.answer);
      } else if RefusesOtherTypes(p) {
        heap.Delete(root);
        return ErrorReply(404);
      } else {
        SetError(root, env, NOT_IMPLEMENTED);
      }
      resp := SendJson(parsed, root);
    }

    /** The reply to a call: an error, the value, or nothing. */
    method Answered(env: Env, p: Endpoint, root: TreeId, answer: Answer)
      requires heap.Valid() && root in heap.trees && heap.trees[root] == []
      modifies heap`trees
      ensures heap.Valid()
      ensures heap.trees == old(heap.trees)[root := AnswerItems(env, p, answer)]
    {
      var good := CheckReturn(root, env, answer.err);
      assert [] + ErrorItems(env, answer.err) == ErrorItems(env, answer.err);
      if good && p.returnsValue {
        heap.Add(root, Item("Value", answer.value));
      }
      assert heap.trees[root] == AnswerItems(env, p, answer);
    }

    method HandleDevice(env: Env, ev: Event) returns (resp: Response)
      requires heap.Valid() && IsDeliverable(ev.req) && IsDeviceTarget(ev.target)
      modifies this, heap
      ensures heap.Valid()
      ensures State() == Step(env, old(State()), ev)
      ensures resp == OutcomeIn(env, old(State()), ev).response
    {
      var parsed := new AlpacaRequest();
      var status := ParseRequest(ev.req, parsed);
      if status != OK {
        return ErrorReply(ErrorStatus(status));
      }
      var root := heap.CreateObject();
      assert root == old(heap.next) + 1;
      resp := Respond(env, ev, parsed, root, devices[parsed.deviceType][parsed.deviceNumber]);
      BackToBefore(old(heap.trees.Keys), parsed.body, root);
      DeviceOutcomeIn(env, old(State()), ev);
    }

    method Handle(env: Env, ev: Event) returns (resp: Response)
      requires heap.Valid() && IsDeliverable(ev.req)
      modifies this, heap
      ensures heap.Valid()
      ensures State() == Step(env, old(State()), ev)
      ensures resp == OutcomeIn(env, old(State()), ev).response
    {
      if IsDeviceTarget(ev.target) {
        resp := HandleDevice(env, ev);
      } else {
        resp := HandleManagement(env, ev);
      }
    }

    /** The server's task answers one request after the other. */
    method Serve(env: Env, evs: seq<Event>) returns (resps: seq<Response>)
      requires heap.Valid() && forall i | 0 <= i < |evs| :: IsDeliverable(evs[i].req)
      modifies this, heap
      ensures heap.Valid()
      ensures State() == Run(env, old(State()), evs)
      ensures resps == ResponsesOf(Outcomes(env, old(State()), evs))
    {
      resps := [];
      for i := 0 to |evs|
        invariant heap.Valid()
        invariant State() == Run(env, old(State()), evs[..i])
        invariant resps == ResponsesOf(Outcomes(env, old(State()), evs[..i]))
      {
        ServeStep(env, old(State()), evs, i);
        var resp := Handle(env, evs[i]);
        resps := resps + [resp];
      }
      assert evs[..|evs|] == evs;
    }

    /** The heap's invariant is the one that runs keep. */
    lemma StateIsOwned()
      requires heap.Valid()
      ensures Owned(State())
    {
    }
  }

  lemma ResponsesSnoc(os: seq<Outcome>, o: Outcome)
    ensures ResponsesOf(os + [o]) == ResponsesOf(os) + [o.response]
  {
  }

  lemma {:induction false} ServeStep(env: Env, s: ServerState, evs: seq<Event>, i: nat)
    requires i < |evs|
    ensures var o := OutcomeIn(env, Run(env, s, evs[..i]), evs[i]);
            && Run(env, s, evs[..i + 1]) == Step(env, Run(env, s, evs[..i]), evs[i])
            && ResponsesOf(Outcomes(env, s, evs[..i + 1])) == ResponsesOf(Outcomes(env, s, evs[..i])) + [o.response]
  {
    assert evs[..i + 1] == evs[..i] + [evs[i]];
    RunSnoc(env, s, evs[..i], evs[i]);
    ResponsesSnoc(Outcomes(env, s, evs[..i]), OutcomeIn(env, Run(env, s, evs[..i]), evs[i]));
  }

  /** The trees of one request, put to and taken from those that were there before. */
  lemma BackToBefore(before: set<TreeId>, body: TreeId, root: TreeId)
    requires body !in before && root !in before && root != body
    ensures before + {body} + {root} - {root, body} == before
    ensures before + {body} + {root} - {root} == before + {body}
  {
  }

  lemma ManagementOutcome(env: Env, s: ServerState, ev: Event)
    requires !IsDeviceTarget(ev.target)
    ensures OutcomeIn(env, s, ev)
         == Outcome(JsonReply([Item("Value", ManagementValue(env, ev.target, s.devices))]
                              + IdItems(ParsedOf(ev.req, s.counter))), None)
  {
  }

  lemma DeviceOutcomeIn(env: Env, s: ServerState, ev: Event)
    requires IsDeviceTarget(ev.target) && StatusOf(ev.req, s.devices) == OK
    ensures var p := ParsedOf(ev.req, s.counter);
            var device := DevicesOf(s.devices, p.deviceType)[p.deviceNumber];
            OutcomeIn(env, s, ev) == DeviceOutcome(env, ev.target, p, device, ev.answer)
  {
  }

  lemma ManagementValueAfter(env: Env, target: Target, req: HttpRequest, m: DeviceMap)
    requires !IsDeviceTarget(target)
    ensures ManagementValue(env, target, DevicesAfter(req, m)) == ManagementValue(env, target, m)
  {
    DevicesAfterSame(req, m);
  }

  lemma NothingToScan(query: string)
    requires query == [] || query[0] == NUL
    ensures ParsePairs(CStr(query)) == []
  {
    assert CStr(query) == [];
    NoPairs([]);
  }

  /** Whatever URI is parsed, every type keeps its devices and the listing stays the same. */
  lemma DevicesAfterSame(req: HttpRequest, m: DeviceMap)
    ensures SameDevices(m, DevicesAfter(req, m))
    ensures Listing(DevicesAfter(req, m)) == Listing(m)
  {
    TouchKeepsDevices(m, TypeOfUriName(ScanUri(req.uri).typeName));
    SameDevicesSameList(m, DevicesAfter(req, m), ALL_TYPES);
  }
}
