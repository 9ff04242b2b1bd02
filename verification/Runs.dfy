/** What holds over every run of the server, whatever the requests and the devices' answers. */
module Runs {
  import opened CText
  import opened Decimal
  import opened Devices
  import opened Handlers
  import opened Json
  import opened Registry
  import opened Requests
  import opened Server
  import opened Uri

  /** The state that the k-th request of a run finds. */
  function StateAt(env: Env, s: ServerState, evs: seq<Event>, k: nat): ServerState
    requires k <= |evs|
  {
    Run(env, s, evs[..k])
  }

  /** A run that ends with `ev`. */
  lemma {:induction false} RunSnoc(env: Env, s: ServerState, front: seq<Event>, ev: Event)
    ensures Run(env, s, front + [ev]) == Step(env, Run(env, s, front), ev)
    ensures Outcomes(env, s, front + [ev]) == Outcomes(env, s, front) + [OutcomeIn(env, Run(env, s, front), ev)]
  {
    assert (front + [ev])[..|front|] == front;
  }

  /** A nonempty list of events by its last event. */
  lemma SplitLast(evs: seq<Event>) returns (front: seq<Event>, ev: Event)
    requires evs != []
    ensures evs == front + [ev] && |evs| == |front| + 1
    ensures forall k | 0 <= k <= |front| :: front[..k] == evs[..k]
    ensures forall k | 0 <= k < |front| :: front[k] == evs[k]
    ensures evs[|front|] == ev && evs[..|front|] == front
  {
    front, ev := evs[..|evs| - 1], evs[|evs| - 1];
  }

  lemma {:induction false} OutcomesLength(env: Env, s: ServerState, evs: seq<Event>)
    ensures |Outcomes(env, s, evs)| == |evs|
  {
    if evs != [] {
      OutcomesLength(env, s, evs[..|evs| - 1]);
    }
  }

  /** The k-th outcome is the outcome of the k-th request in the state that it finds. */
  lemma {:induction false} OutcomeAt(env: Env, s: ServerState, evs: seq<Event>, k: nat)
    requires k < |evs|
    ensures |Outcomes(env, s, evs)| == |evs|
    ensures Outcomes(env, s, evs)[k] == OutcomeIn(env, StateAt(env, s, evs, k), evs[k])
    decreases |evs|
  {
    OutcomesLength(env, s, evs);
    var front, ev := SplitLast(evs);
    RunSnoc(env, s, front, ev);
    OutcomesLength(env, s, front);
    if k < |front| {
      OutcomeAt(env, s, front, k);
    }
  }

  // ---- the registry ----

  lemma SameDevicesTrans(a: DeviceMap, b: DeviceMap, c: DeviceMap)
    requires SameDevices(a, b) && SameDevices(b, c)
    ensures SameDevices(a, c)
  {
    forall t
      ensures DevicesOf(a, t) == DevicesOf(c, t)
    {
      assert DevicesOf(a, t) == DevicesOf(b, t);
    }
  }

  lemma StepKeepsDevices(env: Env, s: ServerState, ev: Event)
    ensures SameDevices(s.devices, Step(env, s, ev).devices)
  {
    TouchKeepsDevices(s.devices, TypeOfUriName(ScanUri(ev.req.uri).typeName));
  }

  /** No sequence of requests changes the devices of any type, nor the configured-devices listing. */
  lemma {:induction false} RunKeepsDevices(env: Env, s: ServerState, evs: seq<Event>)
    ensures SameDevices(s.devices, Run(env, s, evs).devices)
    ensures Listing(Run(env, s, evs).devices) == Listing(s.devices)
  {
    if evs != [] {
      var n := |evs| - 1;
      RunKeepsDevices(env, s, evs[..n]);
      StepKeepsDevices(env, Run(env, s, evs[..n]), evs[n]);
      SameDevicesTrans(s.devices, Run(env, s, evs[..n]).devices, Run(env, s, evs).devices);
    }
    SameDevicesSameList(s.devices, Run(env, s, evs).devices, ALL_TYPES);
  }

  // ---- transaction ids ----

  lemma NextCounted(start: nat, n: nat)
    ensures NextId(CountedOn(start, n)) == CountedOn(start, n + 1)
  {
    CountOneMore(start, n);
  }

  /** The counter after as many increments as there are events in a run. */
  function CounterAfter(start: nat, evs: seq<Event>): nat {
    if evs == [] then start else NextId(CounterAfter(start, evs[..|evs| - 1]))
  }

  lemma {:induction false} CounterAfterSum(start: nat, evs: seq<Event>)
    requires start < TWO32
    ensures CounterAfter(start, evs) == CountedOn(start, |evs|)
  {
    if evs != [] {
      CounterAfterSum(start, evs[..|evs| - 1]);
      NextCounted(start, |evs| - 1);
    }
  }

  lemma StepCounts(env: Env, s: ServerState, ev: Event)
    ensures Step(env, s, ev).counter == NextId(s.counter)
  {
  }

  /** Every request takes one id, refused or not. */
  lemma {:induction false} RunCounts(env: Env, s: ServerState, evs: seq<Event>)
    ensures Run(env, s, evs).counter == CounterAfter(s.counter, evs)
    decreases |evs|
  {
    if evs != [] {
      var front, ev := SplitLast(evs);
      RunCounts(env, s, front);
      RunSnoc(env, s, front, ev);
      StepCounts(env, Run(env, s, front), ev);
    }
  }

  lemma CounterAt(env: Env, s: ServerState, evs: seq<Event>, k: nat)
    requires s.counter < TWO32 && k <= |evs|
    ensures StateAt(env, s, evs, k).counter == CountedOn(s.counter, k)
  {
    var front := evs[..k];
    assert |front| == k;
    RunCounts(env, s, front);
    CounterAfterSum(s.counter, front);
  }

  lemma ParsedId(req: HttpRequest, counter: nat, id: nat)
    requires NextId(counter) == id
    ensures ParsedOf(req, counter).serverTransactionId == ToInt32(id)
  {
  }

  /** The k-th request of a run gets the k-th id after the counter it started from. */
  lemma RequestId(env: Env, s: ServerState, evs: seq<Event>, k: nat)
    requires s.counter < TWO32 && k < |evs|
    ensures var p := ParsedOf(evs[k].req, StateAt(env, s, evs, k).counter);
            p.serverTransactionId == ToInt32(CountedOn(s.counter, k + 1))
  {
    CounterAt(env, s, evs, k);
    NextCounted(s.counter, k);
    ParsedId(evs[k].req, StateAt(env, s, evs, k).counter, CountedOn(s.counter, k + 1));
  }

  // ---- trees ----

  ghost predicate Owned(s: ServerState) {
    && NoDuplicates(s.freed)
    && (forall t: TreeId :: t < s.next <==> t in s.live || t in s.freed)
    && (forall t: TreeId | t in s.live :: t !in s.freed)
  }

  lemma FreshRelease(freed: seq<TreeId>, t: TreeId)
    requires NoDuplicates(freed) && t !in freed
    ensures NoDuplicates(freed + [t])
  {
  }

  /** A JSON reply is only built in a root tree. */
  lemma JsonNeedsRoot(env: Env, s: ServerState, ev: Event)
    ensures OutcomeIn(env, s, ev).response.JsonReply? ==> HasRoot(ev, s.devices)
  {
  }

  /** What the reply and the root have to do with the trees, all else forgotten. */
  predicate TreesStep(s: ServerState, s': ServerState, rooted: bool, json: bool) {
    && s'.next == (if rooted then s.next + 2 else s.next + 1)
    && s'.live == (if json then s.live else s.live + {s.next})
    && s'.freed == (if json then s.freed + [s.next + 1, s.next] else if rooted then s.freed + [s.next + 1] else s.freed)
    && (json ==> rooted)
  }

  lemma StepIsTreesStep(env: Env, s: ServerState, ev: Event)
    ensures TreesStep(s, Step(env, s, ev), HasRoot(ev, s.devices), OutcomeIn(env, s, ev).response.JsonReply?)
  {
    JsonNeedsRoot(env, s, ev);
  }

  /** A step releases only trees of its own, and keeps its body unless the reply is JSON. */
  lemma TreesStepOwned(s: ServerState, s': ServerState, rooted: bool, json: bool)
    requires Owned(s) && TreesStep(s, s', rooted, json)
    ensures Owned(s')
    ensures rooted ==> s.next + 1 in s'.freed
    ensures forall t | t in s.freed :: t in s'.freed
  {
    if rooted {
      FreshRelease(s.freed, s.next + 1);
      FreshRelease(s.freed + [s.next + 1], s.next);
      assert s.freed + [s.next + 1] + [s.next] == s.freed + [s.next + 1, s.next];
    }
  }

  /** Over any run nothing is released twice, and every tree is alive or released. */
  lemma {:induction false} RunOwned(env: Env, s: ServerState, evs: seq<Event>)
    requires Owned(s)
    ensures Owned(Run(env, s, evs))
    decreases |evs|
  {
    if evs != [] {
      var front, ev := SplitLast(evs);
      RunOwned(env, s, front);
      RunSnoc(env, s, front, ev);
      var before := Run(env, s, front);
      StepIsTreesStep(env, before, ev);
      TreesStepOwned(before, Step(env, before, ev), HasRoot(ev, before.devices),
                     OutcomeIn(env, before, ev).response.JsonReply?);
    }
  }

  /** The k-th request is answered with an error reply, which keeps its body tree `t`. */
  ghost predicate KeepsBody(env: Env, s: ServerState, evs: seq<Event>, k: nat, t: TreeId)
    requires k < |evs|
  {
    var before := StateAt(env, s, evs, k);
    OutcomeIn(env, before, evs[k]).response.ErrorReply? && t == before.next
  }

  ghost predicate SomeKeepsBody(env: Env, s: ServerState, evs: seq<Event>, t: TreeId) {
    exists k: nat :: k < |evs| && KeepsBody(env, s, evs, k, t)
  }

  lemma KeepsBodyFront(env: Env, s: ServerState, evs: seq<Event>, front: seq<Event>, ev: Event, k: nat, t: TreeId)
    requires evs == front + [ev] && k < |front|
    ensures KeepsBody(env, s, evs, k, t) == KeepsBody(env, s, front, k, t)
  {
    assert evs[..k] == front[..k];
  }

  lemma KeepsBodyLast(env: Env, s: ServerState, evs: seq<Event>, front: seq<Event>, ev: Event, t: TreeId)
    requires evs == front + [ev]
    ensures SomeKeepsBody(env, s, evs, t) <==>
            SomeKeepsBody(env, s, front, t) || KeepsBody(env, s, evs, |front|, t)
  {
    forall k: nat | k < |front|
      ensures KeepsBody(env, s, evs, k, t) == KeepsBody(env, s, front, k, t)
    {
      KeepsBodyFront(env, s, evs, front, ev, k, t);
    }
  }

  /**
   What is alive after a run is what was alive before it and exactly the bodies of the requests
   that got an error reply.
   */
  lemma {:induction false} LiveAfterRun(env: Env, s: ServerState, evs: seq<Event>, t: TreeId)
    ensures t in Run(env, s, evs).live <==> t in s.live || SomeKeepsBody(env, s, evs, t)
    decreases |evs|
  {
    if evs != [] {
      var front, ev := SplitLast(evs);
      LiveAfterRun(env, s, front, t);
      RunSnoc(env, s, front, ev);
      StepIsTreesStep(env, Run(env, s, front), ev);
      KeepsBodyLast(env, s, evs, front, ev, t);
    }
  }

  /** The root of the k-th request is among the releases. */
  ghost predicate RootReleased(env: Env, s: ServerState, evs: seq<Event>, k: nat, freed: seq<TreeId>)
    requires k < |evs|
  {
    StateAt(env, s, evs, k).next + 1 in freed
  }

  lemma RootReleasedFront(env: Env, s: ServerState, evs: seq<Event>, front: seq<Event>, k: nat, freed: seq<TreeId>)
    requires k < |front| <= |evs| && front[..k] == evs[..k]
    ensures RootReleased(env, s, evs, k, freed) == RootReleased(env, s, front, k, freed)
  {
  }

  /** The root of a request that ends a run. */
  lemma LastRootReleased(env: Env, s: ServerState, front: seq<Event>, ev: Event, evs: seq<Event>)
    requires Owned(Run(env, s, front)) && evs == front + [ev]
    ensures evs[..|front|] == front
    ensures HasRoot(ev, Run(env, s, front).devices) ==> RootReleased(env, s, evs, |front|, Run(env, s, evs).freed)
    ensures forall t | t in Run(env, s, front).freed :: t in Run(env, s, evs).freed
  {
    var before := Run(env, s, front);
    RunSnoc(env, s, front, ev);
    StepIsTreesStep(env, before, ev);
    TreesStepOwned(before, Step(env, before, ev), HasRoot(ev, before.devices),
                   OutcomeIn(env, before, ev).response.JsonReply?);
  }

  /** Every root ever created has been released, exactly once. */
  lemma {:induction false} RootsAreReleased(env: Env, s: ServerState, evs: seq<Event>, k: nat)
    requires Owned(s) && k < |evs| && HasRoot(evs[k], StateAt(env, s, evs, k).devices)
    ensures RootReleased(env, s, evs, k, Run(env, s, evs).freed)
    ensures NoDuplicates(Run(env, s, evs).freed)
    decreases |evs|
  {
    var front, ev := SplitLast(evs);
    RunOwned(env, s, front);
    RunOwned(env, s, evs);
    LastRootReleased(env, s, front, ev, evs);
    if k < |front| {
      RootsAreReleased(env, s, front, k);
      RootReleasedFront(env, s, evs, front, k, Run(env, s, front).freed);
    } else {
      assert k == |front|;
    }
  }
}
