/**
 Where the arguments of a device call come from: the text of the request, through the scans, the
 merge and the checks.
 */
module Arguments {
  import opened CText
  import opened Decimal
  import opened Devices
  import opened Endpoints
  import opened Addressing
  import opened Handlers
  import opened IntegerChecks
  import opened Merge
  import opened Registry
  import opened Reading
  import opened Replies
  import opened Requests
  import opened Routes
  import opened Server
  import opened Uri

  // ---- no parameter of a handler is taken for an id ----

  lemma IdKeyShape(key: string)
    requires IsIdKey(key, false)
    ensures |key| == 8 || |key| == 19
    ensures key[0] == 'C' || key[0] == 'c'
  {
    assert |Lower(key)| == |key| && LowerChar(key[0]) == Lower(key)[0] == 'c';
  }

  lemma ParamIsParameter(name: ParamName)
    ensures IsParameterName(name)
  {
    if IsIdKey(name, false) {
      IdKeyShape(name);
    }
  }

  // ---- what a text stands for ----

  /** The text that a client writes for an argument. */
  function ArgText(a: Arg): string {
    match a
    case TextArg(text) => text
    case FlagArg(flag) => if flag then "true" else "false"
    case IntArg(number) => IntText(number)
    case FloatArg(decimal) => decimal
  }

  /** An integer as `strtol` takes it, to the end of the text; the empty text is 0. */
  ghost predicate IsLenientNumber(s: string, n: int) {
    if s == "" then n == 0
    else exists space, sign, digits ::
           IsIntegerPieces(s, space, sign, digits) && n == Saturate(SignedValue(sign, digits))
  }

  /** What an argument has to do with the text of its parameter. */
  ghost predicate Means(env: Env, check: Check, s: string, a: Arg) {
    match check
    case AnyText => a == TextArg(s)
    case TrueOrFalse => a.FlagArg? && Lower(s) == ArgText(a)
    case StrictInt => a.IntArg? && IsInt32(a.number) && s == ArgText(a)
    case LenientInt => a.IntArg? && IsLenientNumber(s, a.number)
    case Decimals => a == FloatArg(s) && env.isFloat(s)
  }

  lemma FlagMeans(s: string, flag: bool)
    ensures SameText(s, ArgText(FlagArg(flag)), false) <==> Lower(s) == ArgText(FlagArg(flag))
  {
    assert Lower("true") == "true" && Lower("false") == "false";
  }

  lemma FlagConverts(env: Env, s: string, a: Arg)
    ensures Convert(env, TrueOrFalse, s) == Some(a) <==> Means(env, TrueOrFalse, s, a)
  {
    FlagMeans(s, true);
    FlagMeans(s, false);
    assert |"true"| == 4 && |"false"| == 5;
  }

  lemma LenientMeans(s: string, n: int)
    ensures LenientInteger(s) == Some(n) <==> IsLenientNumber(s, n)
  {
    LenientLanguage(s);
  }

  /** A parameter's text is converted to an argument exactly when the argument is what it means. */
  lemma ConvertsMeaning(env: Env, check: Check, s: string, a: Arg)
    ensures Convert(env, check, s) == Some(a) <==> Means(env, check, s, a)
  {
    match check
    case AnyText =>
    case TrueOrFalse => FlagConverts(env, s, a);
    case StrictInt =>
      if a.IntArg? {
        StrictInvertsPrinting(s, a.number);
      }
    case LenientInt =>
      if a.IntArg? {
        LenientMeans(s, a.number);
      }
    case Decimals =>
  }

  // ---- one parameter ----

  /** The argument is what the first text under the parameter's name means. */
  ghost predicate IsArgument(env: Env, req: HttpRequest, p: Param, a: Arg) {
    var s := FirstText(req, p.name, p.caseSensitive);
    s.Some? && Means(env, p.check, s.value, a)
  }

  lemma ReadsFirst(env: Env, req: HttpRequest, p: Param, a: Arg)
    requires |QueryOf(req.uri)| <= 512
    ensures ReadParam(env, p, FieldsOf(req).body) == Some(a) <==> IsArgument(env, req, p, a)
  {
    ParamIsParameter(p.name);
    ReadsParameter(req, p.name, p.caseSensitive);
    var s := FirstText(req, p.name, p.caseSensitive);
    if s.Some? {
      ConvertsMeaning(env, p.check, s.value, a);
    }
  }

  ghost predicate IsGiven(env: Env, req: HttpRequest, p: Param) {
    exists a :: IsArgument(env, req, p, a)
  }

  /** A parameter is read exactly when it is given. */
  lemma ReadsGiven(env: Env, req: HttpRequest, p: Param)
    requires |QueryOf(req.uri)| <= 512
    ensures ReadParam(env, p, FieldsOf(req).body).Some? <==> IsGiven(env, req, p)
  {
    var r := ReadParam(env, p, FieldsOf(req).body);
    if r.Some? {
      ReadsFirst(env, req, p, r.value);
    }
    if IsGiven(env, req, p) {
      var a :| IsArgument(env, req, p, a);
      ReadsFirst(env, req, p, a);
    }
  }

  // ---- all parameters ----

  ghost predicate AllGiven(env: Env, req: HttpRequest, ps: seq<Param>) {
    forall i | 0 <= i < |ps| :: IsGiven(env, req, ps[i])
  }

  ghost predicate AreArguments(env: Env, req: HttpRequest, ps: seq<Param>, args: seq<Arg>) {
    |args| == |ps| && forall i | 0 <= i < |ps| :: IsArgument(env, req, ps[i], args[i])
  }

  lemma {:induction false} ReadsAll(env: Env, req: HttpRequest, ps: seq<Param>)
    requires |QueryOf(req.uri)| <= 512
    ensures var args := ReadParams(env, ps, FieldsOf(req).body);
            && (args.Some? <==> AllGiven(env, req, ps))
            && (args.Some? ==> AreArguments(env, req, ps, args.value))
  {
    if ps != [] {
      ReadsGiven(env, req, ps[0]);
      ReadsAll(env, req, ps[1..]);
      GivenMore(env, req, ps);
      var a := ReadParam(env, ps[0], FieldsOf(req).body);
      if a.Some? {
        ReadsFirst(env, req, ps[0], a.value);
      }
    }
  }

  lemma GivenMore(env: Env, req: HttpRequest, ps: seq<Param>)
    requires ps != []
    ensures AllGiven(env, req, ps) <==> IsGiven(env, req, ps[0]) && AllGiven(env, req, ps[1..])
  {
    assert ps == [ps[0]] + ps[1..];
  }

  /** A request gives at most one list of arguments. */
  lemma OneArgument(env: Env, req: HttpRequest, p: Param, a: Arg, b: Arg)
    requires |QueryOf(req.uri)| <= 512
    requires IsArgument(env, req, p, a) && IsArgument(env, req, p, b)
    ensures a == b
  {
    ReadsFirst(env, req, p, a);
    ReadsFirst(env, req, p, b);
  }

  // ---- from the text of a request to the device ----

  /**
   In any run, a routed request reaches its device exactly when its query is short enough and
   every parameter has a well-formed first value, and then the device gets those values.
   */
  lemma RoutedArguments(env: Env, s: ServerState, ds: seq<Device>, evs: seq<Event>, k: nat)
    requires IsRegistryOf(s.devices, ds) && k < |evs|
    requires IsRouted(RouteTable(s.devices), evs[k].req, evs[k].target) && IsDeviceTarget(evs[k].target)
    ensures |Outcomes(env, s, evs)| == |evs|
    ensures var call, req, ps := Outcomes(env, s, evs)[k].call, evs[k].req, evs[k].target.endpoint.params;
            && (call.Some? <==> |QueryOf(req.uri)| <= 512 && AllGiven(env, req, ps))
            && (call.Some? ==> AreArguments(env, req, ps, call.value.args))
  {
    RoutedRun(env, s, ds, evs, k);
    if |QueryOf(evs[k].req.uri)| <= 512 {
      ReadsAll(env, evs[k].req, evs[k].target.endpoint.params);
    }
  }
}
