/** What the replies of a run say, and which device calls stand behind them. */
module Replies {
  import opened CText
  import opened Devices
  import opened Endpoints
  import opened Addressing
  import opened Handlers
  import opened Json
  import opened Registry
  import opened Requests
  import opened Routes
  import opened Runs
  import opened Server
  import opened Uri

  // ---- the trace ----

  /** The calls behind a list of outcomes, in order. */
  function CallsOf(os: seq<Outcome>): seq<DeviceCall> {
    if os == [] then []
    else
      var n := |os| - 1;
      CallsOf(os[..n]) + (if os[n].call.Some? then [os[n].call.value] else [])
  }

  lemma {:induction false} CallsOfSnoc(os: seq<Outcome>, o: Outcome)
    ensures CallsOf(os + [o]) == CallsOf(os) + (if o.call.Some? then [o.call.value] else [])
  {
    assert (os + [o])[..|os|] == os;
  }

  lemma StepTrace(env: Env, s: ServerState, ev: Event)
    ensures var o := OutcomeIn(env, s, ev);
            Step(env, s, ev).trace == if o.call.Some? then s.trace + [o.call.value] else s.trace
  {
  }

  lemma JoinCalls(a: seq<DeviceCall>, b: seq<DeviceCall>, c: Option<DeviceCall>)
    ensures (if c.Some? then a + b + [c.value] else a + b) == a + (b + if c.Some? then [c.value] else [])
  {
  }

  /** The device calls of a run are those of its outcomes, in order: at most one a request. */
  lemma {:induction false} RunTrace(env: Env, s: ServerState, evs: seq<Event>)
    ensures Run(env, s, evs).trace == s.trace + CallsOf(Outcomes(env, s, evs))
    decreases |evs|
  {
    if evs != [] {
      var front, ev := SplitLast(evs);
      RunTrace(env, s, front);
      RunSnoc(env, s, front, ev);
      StepTrace(env, Run(env, s, front), ev);
      CallsOfSnoc(Outcomes(env, s, front), OutcomeIn(env, Run(env, s, front), ev));
      JoinCalls(s.trace, CallsOf(Outcomes(env, s, front)), OutcomeIn(env, Run(env, s, front), ev).call);
    }
  }

  // ---- one reply ----

  /** `cJSON_GetObjectItemCaseSensitive` on a reply. */
  function FindItem(items: seq<Item>, key: string): Option<Json> {
    if items == [] then None
    else if items[0].key == key then Some(items[0].value)
    else FindItem(items[1..], key)
  }

  lemma {:induction false} FindInConcat(a: seq<Item>, b: seq<Item>, key: string)
    ensures FindItem(a + b, key) == if FindItem(a, key).Some? then FindItem(a, key) else FindItem(b, key)
  {
    if a == [] {
      assert a + b == b;
    } else {
      FindInConcat(a[1..], b, key);
      assert (a + b)[0] == a[0] && (a + b)[1..] == a[1..] + b;
    }
  }

  lemma FindInOne(item: Item, key: string)
    ensures FindItem([item], key) == if item.key == key then Some(item.value) else None
  {
    assert [item][1..] == [];
  }

  lemma FindInTwo(a: Item, b: Item, key: string)
    ensures FindItem([a, b], key) == if a.key == key then Some(a.value)
                                     else if b.key == key then Some(b.value) else None
  {
    assert [a, b][1..] == [b];
    FindInOne(b, key);
  }

  predicate IsIdName(key: string) {
    key == "ClientTransactionID" || key == "ServerTransactionID"
  }

  lemma IdItemsHold(p: Parsed, key: string)
    ensures !IsIdName(key) ==> FindItem(IdItems(p), key) == None
    ensures FindItem(IdItems(p), "ClientTransactionID") == Some(Number(p.fields.clientTransactionId as real))
    ensures FindItem(IdItems(p), "ServerTransactionID") == Some(Number(p.serverTransactionId as real))
  {
    var a, b := IdItems(p)[0], IdItems(p)[1];
    assert a.key[0] == 'C' && b.key[0] == 'S';
    FindInTwo(a, b, key);
    FindInTwo(a, b, "ClientTransactionID");
    FindInTwo(a, b, "ServerTransactionID");
  }

  /** The text that belongs to an error code, by its low 16 bits. */
  function TextOfError(env: Env, err: int): string {
    match env.message(err % 0x1_0000)
    case None => "Unknown error"
    case Some(text) => text
  }

  lemma ErrorItemsHold(env: Env, err: int, key: string)
    ensures IsIdName(key) ==> FindItem(ErrorItems(env, err), key) == None
    ensures FindItem(ErrorItems(env, err), "ErrorNumber") == Some(Number(err as real))
    ensures FindItem(ErrorItems(env, err), "ErrorMessage") == Some(Text(TextOfError(env, err)))
    ensures FindItem(ErrorItems(env, err), "Value") == None
  {
    assert |"Value"| == 5 && |"ErrorNumber"| == 11 && |"ErrorMessage"| == 12;
    assert IsIdName(key) ==> |key| == 19;
    var items := ErrorItems(env, err);
    FindInTwo(items[0], items[1], key);
    FindInTwo(items[0], items[1], "ErrorNumber");
    FindInTwo(items[0], items[1], "ErrorMessage");
    FindInTwo(items[0], items[1], "Value");
  }

  lemma ValueHolds(value: Json, key: string)
    ensures FindItem([Item("Value", value)], key) == if key == "Value" then Some(value) else None
  {
    FindInOne(Item("Value", value), key);
  }

  /** What stands in a reply before the ids: an error with its text, or a value, or nothing. */
  ghost predicate SaysAnswer(env: Env, p: Endpoint, answer: Answer, items: seq<Item>) {
    && FindItem(items, "ErrorNumber") == (if answer.err != 0 then Some(Number(answer.err as real)) else None)
    && FindItem(items, "ErrorMessage") == (if answer.err != 0 then Some(Text(TextOfError(env, answer.err))) else None)
    && FindItem(items, "Value") == (if answer.err == 0 && p.returnsValue then Some(answer.value) else None)
  }

  lemma AnswerItemsHold(env: Env, p: Endpoint, answer: Answer, key: string)
    ensures IsIdName(key) ==> FindItem(AnswerItems(env, p, answer), key) == None
    ensures SaysAnswer(env, p, answer, AnswerItems(env, p, answer))
  {
    assert |"Value"| == 5 && |"ErrorNumber"| == 11 && |"ErrorMessage"| == 12;
    assert IsIdName(key) ==> |key| == 19;
    if answer.err != 0 {
      ErrorItemsHold(env, answer.err, key);
    } else {
      ValueHolds(answer.value, key);
      ValueHolds(answer.value, "ErrorNumber");
      ValueHolds(answer.value, "ErrorMessage");
      ValueHolds(answer.value, "Value");
    }
  }

  /** The two ids of a reply: the client's own, and the server's. */
  ghost predicate SaysIds(items: seq<Item>, clientId: int, serverId: int) {
    && FindItem(items, "ClientTransactionID") == Some(Number(clientId as real))
    && FindItem(items, "ServerTransactionID") == Some(Number(serverId as real))
  }

  lemma IdsBehind(items: seq<Item>, parsed: Parsed)
    requires FindItem(items, "ClientTransactionID") == None && FindItem(items, "ServerTransactionID") == None
    ensures SaysIds(items + IdItems(parsed), parsed.fields.clientTransactionId, parsed.serverTransactionId)
  {
    FindInConcat(items, IdItems(parsed), "ClientTransactionID");
    FindInConcat(items, IdItems(parsed), "ServerTransactionID");
    IdItemsHold(parsed, "ClientTransactionID");
  }

  lemma AnswerInFront(env: Env, p: Endpoint, answer: Answer, items: seq<Item>, parsed: Parsed)
    requires SaysAnswer(env, p, answer, items)
    ensures SaysAnswer(env, p, answer, items + IdItems(parsed))
  {
    assert |"Value"| == 5 && |"ErrorNumber"| == 11 && |"ErrorMessage"| == 12;
    FindInConcat(items, IdItems(parsed), "ErrorNumber");
    FindInConcat(items, IdItems(parsed), "ErrorMessage");
    FindInConcat(items, IdItems(parsed), "Value");
    IdItemsHold(parsed, "ErrorNumber");
    IdItemsHold(parsed, "ErrorMessage");
    IdItemsHold(parsed, "Value");
  }

  /**
   A reply to a device call echoes the client's transaction id, carries the server's, has an error
   number and its text exactly when the call returned one, and a value only when it did not.
   */
  lemma ReplySays(env: Env, p: Endpoint, answer: Answer, parsed: Parsed)
    ensures var items := AnswerItems(env, p, answer) + IdItems(parsed);
            && SaysIds(items, parsed.fields.clientTransactionId, parsed.serverTransactionId)
            && SaysAnswer(env, p, answer, items)
  {
    AnswerItemsHold(env, p, answer, "ClientTransactionID");
    AnswerItemsHold(env, p, answer, "ServerTransactionID");
    IdsBehind(AnswerItems(env, p, answer), parsed);
    AnswerInFront(env, p, answer, AnswerItems(env, p, answer), parsed);
  }

  /** Codes that agree in their low 16 bits share their text, though not their number. */
  lemma ErrorTextRepeats(env: Env, err: int, k: int)
    ensures FindItem(ErrorItems(env, err), "ErrorMessage") == FindItem(ErrorItems(env, err + 0x1_0000 * k), "ErrorMessage")
    ensures FindItem(ErrorItems(env, err), "ErrorNumber") == FindItem(ErrorItems(env, err + 0x1_0000 * k), "ErrorNumber")
            <==> k == 0
  {
    LowWord(err, k);
    var a, b := ErrorItems(env, err), ErrorItems(env, err + 0x1_0000 * k);
    assert |"ErrorNumber"| == 11 && |"ErrorMessage"| == 12;
    FindInTwo(a[0], a[1], "ErrorMessage");
    FindInTwo(b[0], b[1], "ErrorMessage");
    FindInTwo(a[0], a[1], "ErrorNumber");
    FindInTwo(b[0], b[1], "ErrorNumber");
  }

  lemma LowWord(err: int, k: int)
    ensures (err + 0x1_0000 * k) % 0x1_0000 == err % 0x1_0000
  {
    var q, r := err / 0x1_0000, err % 0x1_0000;
    assert err + 0x1_0000 * k == 0x1_0000 * (q + k) + r;
  }

  // ---- one request ----

  /** An error reply means that no device was called, whatever the request. */
  lemma ErrorMeansNoCall(env: Env, s: ServerState, ev: Event)
    ensures OutcomeIn(env, s, ev).response.ErrorReply? ==> OutcomeIn(env, s, ev).call.None?
  {
  }

  /**
   What a device handler answers to a request that did not come through the route table: 400 to a
   long query, 404 to an address without a device, and to a device of another class an error
   number, except that one handler answers 404.
   */
  lemma UnroutedOutcome(env: Env, s: ServerState, ev: Event)
    requires IsDeviceTarget(ev.target)
    ensures |QueryOf(ev.req.uri)| > 512 ==> OutcomeIn(env, s, ev) == Outcome(ErrorReply(400), None)
    ensures |QueryOf(ev.req.uri)| <= 512 ==>
              var t, i := TypeOfUriName(ScanUri(ev.req.uri).typeName), ScanUri(ev.req.uri).number;
              && (t == Unknown || i >= |DevicesOf(s.devices, t)| ==> OutcomeIn(env, s, ev) == Outcome(ErrorReply(404), None))
              && (t != Unknown && i < |DevicesOf(s.devices, t)| && ev.target.Specific? && t != TypeOfClass(ev.target.cls) ==>
                    IsForOtherClass(env, ev, OutcomeIn(env, s, ev)))
  {
    if StatusOf(ev.req, s.devices) == OK && !TypeMatches(ev.target, TypeOfUriName(ScanUri(ev.req.uri).typeName)) {
      NotImplementedSays(env, ParsedOf(ev.req, s.counter));
    }
  }

  ghost predicate IsForOtherClass(env: Env, ev: Event, o: Outcome)
    requires IsDeviceTarget(ev.target)
  {
    && o.call.None?
    && if ev.target.endpoint.name == "calibratoron" then o.response == ErrorReply(404)
       else o.response.JsonReply? && FindItem(o.response.items, "ErrorNumber") == Some(Number(0x400 as real))
  }

  lemma NotImplementedSays(env: Env, p: Parsed)
    ensures FindItem(ErrorItems(env, NOT_IMPLEMENTED) + IdItems(p), "ErrorNumber") == Some(Number(0x400 as real))
  {
    ErrorItemsHold(env, NOT_IMPLEMENTED, "ErrorNumber");
    FindInConcat(ErrorItems(env, NOT_IMPLEMENTED), IdItems(p), "ErrorNumber");
  }

  /** The device and arguments of a request that came through the route table. */
  ghost predicate CallsAsRouted(env: Env, m: DeviceMap, ev: Event, p: Parsed, call: DeviceCall)
    requires IsDeviceTarget(ev.target)
  {
    && p.deviceNumber < |DevicesOf(m, p.deviceType)|
    && call.device == DevicesOf(m, p.deviceType)[p.deviceNumber]
    && call.castTo == CastOf(ev.target)
    && (call.castTo.Some? ==> call.device.cls == call.castTo.value)
    && call.endpoint == ev.target.endpoint
    && ReadParams(env, ev.target.endpoint.params, p.fields.body) == Some(call.args)
  }

  /** Is a request good enough for its device to be called? */
  predicate IsAccepted(env: Env, ev: Event)
    requires IsDeviceTarget(ev.target)
  {
    && |QueryOf(ev.req.uri)| <= MAX_QUERY
    && ReadParams(env, ev.target.endpoint.params, FieldsOf(ev.req).body).Some?
  }

  /**
   A request that came through the route table calls its device exactly when its query is short
   enough and its parameters are all there and well formed; it is answered with 400 otherwise,
   and never with 404 or "not implemented".
   */
  lemma RoutedOutcome(env: Env, s: ServerState, m: DeviceMap, ds: seq<Device>, ev: Event)
    requires IsRegistryOf(m, ds) && SameDevices(m, s.devices)
    requires IsRouted(RouteTable(m), ev.req, ev.target) && IsDeviceTarget(ev.target)
    ensures var o := OutcomeIn(env, s, ev);
            var p := ParsedOf(ev.req, s.counter);
            if IsAccepted(env, ev) then
              && o.call.Some? && CallsAsRouted(env, m, ev, p, o.call.value)
              && o.response == JsonReply(AnswerItems(env, ev.target.endpoint, ev.answer) + IdItems(p))
            else
              o == Outcome(ErrorReply(400), None)
  {
    RoutedRequestIsSafe(m, s.devices, ds, ev.req, ev.target);
    SameDeviceAt(m, s.devices, ParsedOf(ev.req, s.counter).deviceType);
  }

  lemma SameDeviceAt(m: DeviceMap, m': DeviceMap, t: DeviceType)
    requires SameDevices(m, m')
    ensures DevicesOf(m, t) == DevicesOf(m', t)
  {
  }

  predicate AllRouted(rs: seq<Route>, evs: seq<Event>) {
    forall k | 0 <= k < |evs| :: IsRouted(rs, evs[k].req, evs[k].target)
  }

  /** The same for the k-th request of any run, in the state that the run has reached by then. */
  lemma RoutedRun(env: Env, s: ServerState, ds: seq<Device>, evs: seq<Event>, k: nat)
    requires IsRegistryOf(s.devices, ds) && k < |evs|
    requires IsRouted(RouteTable(s.devices), evs[k].req, evs[k].target) && IsDeviceTarget(evs[k].target)
    ensures |Outcomes(env, s, evs)| == |evs|
    ensures var o := Outcomes(env, s, evs)[k];
            var p := ParsedOf(evs[k].req, StateAt(env, s, evs, k).counter);
            if IsAccepted(env, evs[k]) then
              && o.call.Some? && CallsAsRouted(env, s.devices, evs[k], p, o.call.value)
              && o.response == JsonReply(AnswerItems(env, evs[k].target.endpoint, evs[k].answer) + IdItems(p))
            else
              o == Outcome(ErrorReply(400), None)
  {
    OutcomeAt(env, s, evs, k);
    RunKeepsDevices(env, s, evs[..k]);
    RoutedOutcome(env, StateAt(env, s, evs, k), s.devices, ds, evs[k]);
  }
}
