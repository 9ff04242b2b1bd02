/**
 The other end of the line: a client that writes a call into a request, and what becomes of it. The
 request comes back as exactly that call on exactly that device.
 */
module Client {
  import opened CText
  import opened Decimal
  import opened Devices
  import opened Endpoints
  import opened Addressing
  import opened Arguments
  import opened Handlers
  import opened IntegerChecks
  import opened KeptTrees
  import opened Merge
  import opened QueryPairs
  import opened Reading
  import opened Registry
  import opened Replies
  import opened Requests
  import opened Routes
  import opened Server
  import opened Startup
  import opened Uri

  // ---- texts and pairs ----

  /** Pairs written behind a path arrive, if they are scannable and fit. */
  lemma QueryCarries(req: HttpRequest, path: string, ps: seq<Pair>)
    requires AllScannable(ps) && NUL !in Join(ps) && '?' !in path
    requires req.uri == path + "?" + Join(ps)
    ensures PathOf(req.uri) == path && ParsePairs(QueryText(req)) == ps
  {
    UriParts(path, Join(ps));
    CStrOfAll(Join(ps));
    PairsOfJoin(ps);
  }

  /** So do pairs written as a form. */
  lemma FormCarries(req: HttpRequest, ps: seq<Pair>)
    requires AllScannable(ps) && NUL !in Join(ps) && 0 < |Join(ps)| < 4096
    requires req.received == Join(ps) && req.contentLength == |Join(ps)|
    requires SameText(req.contentType, "application/x-www-form-urlencoded", false)
    ensures ParsePairs(FormText(req)) == ps
  {
    FormTypeMeans(req.contentType);
    CStrOfAll(Join(ps));
    PairsOfJoin(ps);
  }

  lemma CStrOfAll(s: string)
    requires NUL !in s
    ensures CStr(s) == s
  {
    IndexIs(s, NUL, |s|);
  }

  lemma PairsOfJoin(ps: seq<Pair>)
    requires AllScannable(ps)
    ensures ParsePairs(Join(ps)) == ps
  {
    ScanReads(ps, []);
    assert Join(ps) + [] == Join(ps);
  }

  lemma {:induction false} FirstOfBoth(a: seq<Pair>, b: seq<Pair>, key: string, caseSensitive: bool)
    ensures FirstValue(a + b, key, caseSensitive) == OrElse(FirstValue(a, key, caseSensitive), FirstValue(b, key, caseSensitive))
  {
    if a == [] {
      assert a + b == b;
    } else {
      FirstOfBoth(a[1..], b, key, caseSensitive);
      assert (a + b)[0] == a[0] && (a + b)[1..] == a[1..] + b;
    }
  }

  // ---- a call ----

  /** The pairs of a call: an argument for each parameter, then the client's own id. */
  function ArgPairs(ps: seq<Param>, args: seq<Arg>): seq<Pair>
    requires |ps| == |args|
  {
    seq(|ps|, i requires 0 <= i < |ps| => Pair(ps[i].name, ArgText(args[i])))
  }

  function CallPairs(ps: seq<Param>, args: seq<Arg>, id: int): seq<Pair>
    requires |ps| == |args|
  {
    ArgPairs(ps, args) + [Pair("ClientTransactionID", IntText(id))]
  }

  /** Is the argument of the kind that the parameter takes? */
  predicate Suits(env: Env, check: Check, a: Arg) {
    match check
    case AnyText => a.TextArg?
    case TrueOrFalse => a.FlagArg?
    case StrictInt => a.IntArg? && IsInt32(a.number)
    case LenientInt => a.IntArg? && IsInt32(a.number)
    case Decimals => a.FloatArg? && env.isFloat(a.decimal)
  }

  predicate AllSuit(env: Env, ps: seq<Param>, args: seq<Arg>) {
    |ps| == |args| && forall i | 0 <= i < |ps| :: Suits(env, ps[i].check, args[i])
  }

  /** Every argument that suits means itself when it is written out. */
  lemma WrittenMeansItself(env: Env, check: Check, a: Arg)
    requires Suits(env, check, a)
    ensures Means(env, check, ArgText(a), a)
  {
    match check
    case AnyText =>
    case TrueOrFalse => assert Lower("true") == "true" && Lower("false") == "false";
    case StrictInt =>
    case LenientInt => IntTextIsLenient(a.number);
    case Decimals =>
  }

  lemma IntTextIsLenient(n: int)
    requires IsInt32(n)
    ensures IsLenientNumber(IntText(n), n)
  {
    StrictInvertsPrinting(IntText(n), n);
    StrictWithinLenient(IntText(n));
    LenientMeans(IntText(n), n);
  }

  // ---- names of parameters ----

  /** The parameters of one endpoint are told apart by the lengths of their names. */
  predicate AreApart(ps: seq<Param>) {
    |ps| <= 1 || (|ps| == 2 && |ps[0].name| != |ps[1].name|)
  }

  predicate AllApart(es: seq<Endpoint>) {
    forall i | 0 <= i < |es| :: AreApart(es[i].params)
  }

  lemma CommonParamsApart()
    ensures AllApart(COMMON)
  {
  }

  lemma SwitchParamsApart()
    ensures AllApart(SWITCH)
  {
  }

  lemma DomeParamsApart()
    ensures AllApart(DOME)
  {
  }

  lemma SpecificParamsApart(c: DeviceClass)
    ensures AllApart(SpecificEndpoints(c))
  {
    match c
    case SwitchClass => SwitchParamsApart();
    case DomeClass => DomeParamsApart();
    case _ =>
  }

  lemma ParamsApart(c: DeviceClass, k: nat)
    requires k < |EndpointsOf(c)|
    ensures AreApart(EndpointsOf(c)[k].params)
  {
    CommonParamsApart();
    SpecificParamsApart(c);
  }

  lemma SameTextSameLength(a: string, b: string, caseSensitive: bool)
    requires SameText(a, b, caseSensitive)
    ensures |a| == |b|
  {
    SameTextMeans(a, b);
  }

  lemma SameTextItself(a: string, caseSensitive: bool)
    ensures SameText(a, a, caseSensitive)
  {
  }

  // ---- reading a call back ----

  lemma FirstOfArg(ps: seq<Param>, args: seq<Arg>, i: nat)
    requires |ps| == |args| && AreApart(ps) && i < |ps|
    ensures FirstValue(ArgPairs(ps, args), ps[i].name, ps[i].caseSensitive) == Some(ArgText(args[i]))
  {
    var pairs := ArgPairs(ps, args);
    SameTextItself(ps[i].name, ps[i].caseSensitive);
    if i == 1 && SameText(ps[0].name, ps[1].name, ps[1].caseSensitive) {
      SameTextSameLength(ps[0].name, ps[1].name, ps[1].caseSensitive);
      assert false;
    }
    if i == 1 {
      assert pairs[1..][0] == pairs[1];
    }
  }

  lemma FirstOfCall(ps: seq<Param>, args: seq<Arg>, id: int, i: nat)
    requires |ps| == |args| && AreApart(ps) && i < |ps|
    ensures FirstValue(CallPairs(ps, args, id), ps[i].name, ps[i].caseSensitive) == Some(ArgText(args[i]))
  {
    FirstOfArg(ps, args, i);
    FirstOfBoth(ArgPairs(ps, args), [Pair("ClientTransactionID", IntText(id))], ps[i].name, ps[i].caseSensitive);
  }

  /** The query and the form of a request, together, hold the pairs of a call. */
  predicate Carries(req: HttpRequest, pairs: seq<Pair>) {
    |QueryOf(req.uri)| <= 512 && ParsePairs(QueryText(req)) + ParsePairs(FormText(req)) == pairs
  }

  lemma ArgumentsArrive(env: Env, req: HttpRequest, ps: seq<Param>, args: seq<Arg>, id: int)
    requires AllSuit(env, ps, args) && AreApart(ps) && Carries(req, CallPairs(ps, args, id))
    ensures AreArguments(env, req, ps, args)
  {
    forall i | 0 <= i < |ps|
      ensures IsArgument(env, req, ps[i], args[i])
    {
      FirstOfCall(ps, args, id, i);
      FirstOfBoth(ParsePairs(QueryText(req)), ParsePairs(FormText(req)), ps[i].name, ps[i].caseSensitive);
      WrittenMeansItself(env, ps[i].check, args[i]);
    }
  }

  /** A request without a query whose form holds the pairs. */
  lemma FormIsCall(req: HttpRequest, path: string, ps: seq<Pair>)
    requires req.uri == path && '?' !in path
    requires AllScannable(ps) && NUL !in Join(ps) && 0 < |Join(ps)| < 4096
    requires req.received == Join(ps) && req.contentLength == |Join(ps)|
    requires SameText(req.contentType, "application/x-www-form-urlencoded", false)
    ensures PathOf(req.uri) == path && Carries(req, ps)
  {
    UriParts(path, "");
    CStrOfAll("");
    NoPairs("");
    FormCarries(req, ps);
    assert [] + ps == ps;
  }

  /** A request without a body whose query holds them. */
  lemma QueryIsCall(req: HttpRequest, path: string, ps: seq<Pair>)
    requires req.uri == path + "?" + Join(ps) && '?' !in path && req.contentLength == 0
    requires AllScannable(ps) && NUL !in Join(ps) && |Join(ps)| <= 512
    ensures PathOf(req.uri) == path && Carries(req, ps)
  {
    UriParts(path, Join(ps));
    NoPairs("");
    QueryCarries(req, path, ps);
    assert ps + [] == ps;
  }

  // ---- reading the id back ----

  /** No pair but the last has the name of the id, in any case. */
  predicate OnlyLastIsId(pairs: seq<Pair>) {
    && pairs != [] && pairs[|pairs| - 1].key == "ClientTransactionID"
    && forall i | 0 <= i < |pairs| - 1 :: !SameText(pairs[i].key, "ClientTransactionID", false)
  }

  lemma CallHasOneId(ps: seq<Param>, args: seq<Arg>, id: int)
    requires |ps| == |args|
    ensures OnlyLastIsId(CallPairs(ps, args, id))
  {
    forall i | 0 <= i < |ps|
      ensures !SameText(ps[i].name, "ClientTransactionID", false)
    {
      ParamIsParameter(ps[i].name);
    }
  }

  /** In a list cut in two, the id stands last in one part and nowhere else. */
  lemma IdInParts(q: seq<Pair>, f: seq<Pair>)
    requires OnlyLastIsId(q + f)
    ensures var v := (q + f)[|q + f| - 1].value;
            OrElse(LastValue(f, "ClientTransactionID", true), LastValue(q, "ClientTransactionID", false)) == Some(v)
  {
    SameTextItself("ClientTransactionID", true);
    SameTextItself("ClientTransactionID", false);
    if f != [] {
      assert f[|f| - 1] == (q + f)[|q + f| - 1];
    } else {
      assert q + f == q;
    }
  }

  lemma IdArrives(req: HttpRequest, ps: seq<Param>, args: seq<Arg>, id: int)
    requires |ps| == |args| && IsInt32(id) && Carries(req, CallPairs(ps, args, id))
    ensures IdNumber(req, "ClientTransactionID") == id
  {
    CallHasOneId(ps, args, id);
    IdInParts(ParsePairs(QueryText(req)), ParsePairs(FormText(req)));
    StrtolReadsIntText(id, "");
    assert IntText(id) + "" == IntText(id);
  }

  // ---- the round trip ----

  /** The request of a client: the path of an endpoint of a device, and a call. */
  predicate IsCallRequest(env: Env, ds: seq<Device>, req: HttpRequest, c: DeviceClass, n: nat, k: nat, args: seq<Arg>, id: int) {
    && k < |EndpointsOf(c)| && n < |OfType(ds, TypeOfClass(c))| && AsksFor(req, c, n, EndpointsOf(c)[k])
    && AllSuit(env, EndpointsOf(c)[k].params, args) && IsInt32(id)
    && Carries(req, CallPairs(EndpointsOf(c)[k].params, args, id))
  }

  lemma CallIsRead(env: Env, req: HttpRequest, c: DeviceClass, k: nat, args: seq<Arg>, id: int)
    requires k < |EndpointsOf(c)| && AllSuit(env, EndpointsOf(c)[k].params, args)
    requires Carries(req, CallPairs(EndpointsOf(c)[k].params, args, id))
    ensures ReadParams(env, EndpointsOf(c)[k].params, FieldsOf(req).body) == Some(args)
  {
    var ps := EndpointsOf(c)[k].params;
    ParamsApart(c, k);
    ArgumentsArrive(env, req, ps, args, id);
    assert AllGiven(env, req, ps) by {
      assert forall i | 0 <= i < |ps| :: IsArgument(env, req, ps[i], args[i]);
    }
    ReadsAll(env, req, ps);
    var read := ReadParams(env, ps, FieldsOf(req).body).value;
    forall i | 0 <= i < |ps|
      ensures read[i] == args[i]
    {
      OneArgument(env, req, ps[i], read[i], args[i]);
    }
    assert read == args;
  }

  /**
   What a client writes is what the device gets: the request is passed to the handler of the
   endpoint, which calls the n-th device of the class with just these arguments, and the reply has
   the client's id and the device's answer. Beyond number 255 it is the device 256 places before.
   */
  lemma {:induction false} CallArrives(env: Env, s: ServerState, m: DeviceMap, ds: seq<Device>, req: HttpRequest, answer: Answer,
                    c: DeviceClass, n: nat, k: nat, args: seq<Arg>, id: int)
    requires IsRegistryOf(m, ds) && SameDevices(m, s.devices) && |ds| < TWO32
    requires IsCallRequest(env, ds, req, c, n, k, args, id)
    ensures IsRouted(RouteTable(m), req, TargetFor(c, k)) && IsDeviceTarget(TargetFor(c, k))
    ensures var ev := Event(TargetFor(c, k), req, answer);
            var o := OutcomeIn(env, s, ev);
            && o.call == Some(DeviceCall(Reached(ds, c, n), if k < 12 then None else Some(c), EndpointsOf(c)[k], args))
            && o.response.JsonReply?
            && SaysIds(o.response.items, id, ToInt32(NextId(s.counter)))
            && SaysAnswer(env, EndpointsOf(c)[k], answer, o.response.items)
  {
    HandlerIsRouted(m, ds, req, c, n, k);
    CallIsRead(env, req, c, k, args, id);
    IdArrives(req, EndpointsOf(c)[k].params, args, id);
    CallIsMade(env, s, m, ds, Event(TargetFor(c, k), req, answer), c, n, k, args);
    AnswerByText(env, Event(TargetFor(c, k), req, answer), ParsedOf(req, s.counter),
                 OutcomeIn(env, s, Event(TargetFor(c, k), req, answer)));
  }

  lemma {:induction false} CallIsMade(env: Env, s: ServerState, m: DeviceMap, ds: seq<Device>, ev: Event,
                   c: DeviceClass, n: nat, k: nat, args: seq<Arg>)
    requires IsRegistryOf(m, ds) && SameDevices(m, s.devices)
    requires k < |EndpointsOf(c)| && n < |OfType(ds, TypeOfClass(c))| && AsksFor(ev.req, c, n, EndpointsOf(c)[k])
    requires ev.target == TargetFor(c, k) && IsDeviceTarget(ev.target) && IsRouted(RouteTable(m), ev.req, ev.target)
    requires |QueryOf(ev.req.uri)| <= 512
    requires ReadParams(env, EndpointsOf(c)[k].params, FieldsOf(ev.req).body) == Some(args)
    ensures var o := OutcomeIn(env, s, ev);
            && o.call == Some(DeviceCall(Reached(ds, c, n), if k < 12 then None else Some(c), EndpointsOf(c)[k], args))
            && o.response == JsonReply(AnswerItems(env, ev.target.endpoint, ev.answer) + IdItems(ParsedOf(ev.req, s.counter)))
  {
    RoutedOutcome(env, s, m, ds, ev);
    PathResolves(TypeOfClass(c), n, EndpointsOf(c)[k].name, ev.req.uri);
    assert DevicesOf(m, TypeOfClass(c)) == OfType(ds, TypeOfClass(c));
  }

  // ---- one such request ----

  const SLAVE_TEXT := "Slaved=true&ClientTransactionID=7"

  /** The request to slave the first dome. */
  const SLAVE_REQUEST := HttpRequest(PUT, SLAVE_DOME, 33, SLAVE_TEXT, "application/x-www-form-urlencoded")

  lemma SlaveTextIsJoined()
    ensures Join([Pair("Slaved", "true"), Pair("ClientTransactionID", "7")]) == SLAVE_TEXT
  {
    var ps := [Pair("Slaved", "true"), Pair("ClientTransactionID", "7")];
    assert ps[1..] == [Pair("ClientTransactionID", "7")];
    assert Join(ps[1..]) == "ClientTransactionID" + "=" + "7";
    assert Join(ps) == "Slaved" + "=" + "true" + "&" + ("ClientTransactionID" + "=" + "7");
  }

  lemma SlaveTextIsText()
    ensures NUL !in SLAVE_TEXT && |SLAVE_TEXT| == 33
    ensures '?' !in SLAVE_DOME
  {
  }

  lemma SlavePairsAreScannable(ps: seq<Pair>)
    requires ps == [Pair("Slaved", "true"), Pair("ClientTransactionID", "7")]
    ensures AllScannable(ps)
  {
    assert IsScannable(Pair("Slaved", "true"));
    assert IsScannable(Pair("ClientTransactionID", "7"));
  }

  lemma SlaveRequestCarries(req: HttpRequest, ps: seq<Pair>)
    requires req == SLAVE_REQUEST && ps == CallPairs(SLAVED.params, [FlagArg(true)], 7)
    ensures PathOf(req.uri) == SLAVE_DOME && Carries(req, ps)
  {
    SlaveCallPairs(ps);
    SlavePairsAreScannable(ps);
    SlaveTextIsJoined();
    SlaveTextIsText();
    FormIsCall(req, SLAVE_DOME, ps);
  }

  lemma SlaveAsksForDome(req: HttpRequest)
    requires req.verb == PUT && PathOf(req.uri) == SLAVE_DOME
    ensures AsksFor(req, DomeClass, 0, SLAVED) && 0 < |OfType(Domes(1), TypeOfClass(DomeClass))|
  {
    AllDomes(Domes(1));
    SlaveDomeIsPrinted();
  }

  lemma SlaveArgsSuit(env: Env)
    ensures AllSuit(env, SLAVED.params, [FlagArg(true)])
  {
  }

  /** On a server with one dome it is the call to slave that dome, with true, as the client's 7. */
  lemma SlaveRequestIsCall(env: Env, req: HttpRequest)
    requires req == SLAVE_REQUEST
    ensures IsCallRequest(env, Domes(1), req, DomeClass, 0, PUT_SLAVED, [FlagArg(true)], 7)
  {
    SlavedIs();
    SlaveRequestCarries(req, CallPairs(SLAVED.params, [FlagArg(true)], 7));
    SlaveAsksForDome(req);
    SlaveArgsSuit(env);
  }

  lemma SlaveCallPairs(ps: seq<Pair>)
    requires ps == CallPairs(SLAVED.params, [FlagArg(true)], 7)
    ensures ps == [Pair("Slaved", "true"), Pair("ClientTransactionID", "7")]
  {
    assert IntText(7) == "7";
  }
}
