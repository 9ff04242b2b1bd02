/**
 The server's state as values, and what one request does to it. The trees are counted as the
 JSON heap counts them: which were created, which are alive, which were released and when.
 */
module Server {
  import opened Handlers
  import opened Json
  import opened Registry
  import opened Requests
  import opened Routes

  datatype ServerState = ServerState(
    devices: DeviceMap,
    counter: nat,           // the transaction counter
    next: TreeId,           // trees created so far
    live: set<TreeId>,
    freed: seq<TreeId>,
    trace: seq<DeviceCall>) // every call of a device so far

  /** A request that found its handler, and what the device will answer if it is called. */
  datatype Event = Event(target: Target, req: HttpRequest, answer: Answer)

  /** A request that `parse_request` refuses never gets a root tree. */
  predicate HasRoot(ev: Event, m: DeviceMap) {
    !IsDeviceTarget(ev.target) || StatusOf(ev.req, m) == OK
  }

  /** The reply to one request and the call that was made for it. */
  function OutcomeIn(env: Env, s: ServerState, ev: Event): Outcome {
    OutcomeOf(env, ev.target, ev.req, s.devices, s.counter, ev.answer)
  }

  /**
   One request. The body tree is created first and the root tree second; a JSON reply releases
   root and body, an error reply releases the root alone.
   */
  function Step(env: Env, s: ServerState, ev: Event): ServerState {
    var outcome := OutcomeIn(env, s, ev);
    var json, rooted := outcome.response.JsonReply?, HasRoot(ev, s.devices);
    var body, root := s.next, s.next + 1;
    ServerState(
      DevicesAfter(ev.req, s.devices),
      NextId(s.counter),
      if rooted then s.next + 2 else s.next + 1,
      if json then s.live else s.live + {body},
      if json then s.freed + [root, body] else if rooted then s.freed + [root] else s.freed,
      if outcome.call.Some? then s.trace + [outcome.call.value] else s.trace)
  }

  /** The state after a run. */
  function Run(env: Env, s: ServerState, evs: seq<Event>): ServerState {
    if evs == [] then s
    else
      var n := |evs| - 1;
      Step(env, Run(env, s, evs[..n]), evs[n])
  }

  /** What every request of a run comes to. */
  function Outcomes(env: Env, s: ServerState, evs: seq<Event>): seq<Outcome> {
    if evs == [] then []
    else
      var n := |evs| - 1;
      Outcomes(env, s, evs[..n]) + [OutcomeIn(env, Run(env, s, evs[..n]), evs[n])]
  }

  function ResponsesOf(outcomes: seq<Outcome>): seq<Response> {
    seq(|outcomes|, i requires 0 <= i < |outcomes| => outcomes[i].response)
  }
}
