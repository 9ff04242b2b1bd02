/**
 The transaction counter under concurrent handlers: each takes the mutex, reads the counter,
 writes it back incremented with its own copy of the id, and releases the mutex. The steps of
 different handlers interleave in any order.
 */
module TransactionIds {
  import opened CText
  import opened Decimal

  type Thread = nat

  /** Where a handler is in `parse_request`. */
  datatype Place =
    | Outside
    | Waiting               // about to call lock
    | Entered               // holds the mutex
    | Loaded(value: nat)    // has read the counter
    | Stored(id: int)       // has written it back and kept the id

  datatype Issue = Issue(thread: Thread, id: int)

  datatype Shared = Shared(
    counter: nat,
    owner: Option<Thread>,
    places: map<Thread, Place>,
    locks: seq<Thread>,     // who took the mutex, in order
    issued: seq<Issue>)     // the ids handed out, in order

  function PlaceOf(s: Shared, t: Thread): Place {
    if t in s.places then s.places[t] else Outside
  }

  datatype Action = Call(t: Thread) | Lock(t: Thread) | Load(t: Thread) | Store(t: Thread) | Unlock(t: Thread)

  predicate IsEnabled(s: Shared, a: Action) {
    match a
    case Call(t) => PlaceOf(s, t).Outside?
    case Lock(t) => PlaceOf(s, t).Waiting? && s.owner == None
    case Load(t) => PlaceOf(s, t).Entered?
    case Store(t) => PlaceOf(s, t).Loaded?
    case Unlock(t) => PlaceOf(s, t).Stored?
  }

  function Move(s: Shared, t: Thread, p: Place): Shared {
    s.(places := s.places[t := p])
  }

  function Act(s: Shared, a: Action): Shared
    requires IsEnabled(s, a)
  {
    match a
    case Call(t) => Move(s, t, Waiting)
    case Lock(t) => Move(s, t, Entered).(owner := Some(t), locks := s.locks + [t])
    case Load(t) => Move(s, t, Loaded(s.counter))
    case Store(t) =>
      var next := Wrap32(PlaceOf(s, t).value + 1);
      Move(s, t, Stored(ToInt32(next))).(counter := next, issued := s.issued + [Issue(t, ToInt32(next))])
    case Unlock(t) => Move(s, t, Outside).(owner := None)
  }

  /** A run: every action is enabled when its turn comes. */
  predicate IsRun(s: Shared, actions: seq<Action>)
    decreases |actions|
  {
    actions == [] || (IsEnabled(s, actions[0]) && IsRun(Act(s, actions[0]), actions[1..]))
  }

  function After(s: Shared, actions: seq<Action>): Shared
    requires IsRun(s, actions)
    decreases |actions|
  {
    if actions == [] then s else After(Act(s, actions[0]), actions[1..])
  }

  function Initial(counter: nat): Shared {
    Shared(counter, None, map[], [], [])
  }

  // ---- the invariant ----

  predicate IsInside(p: Place) {
    p.Entered? || p.Loaded? || p.Stored?
  }

  /** Only the owner of the mutex is between lock and unlock. */
  ghost predicate MutualExclusion(s: Shared) {
    forall t: Thread :: IsInside(PlaceOf(s, t)) <==> s.owner == Some(t)
  }

  /** How far the owner has come tells whether its id has been handed out. */
  predicate CountFits(s: Shared, start: nat) {
    && s.counter == CountedOn(start, |s.issued|)
    && match s.owner
       case None => |s.locks| == |s.issued|
       case Some(t) =>
         match PlaceOf(s, t)
         case Stored(id) => |s.locks| == |s.issued| && s.issued != [] && s.issued[|s.issued| - 1] == Issue(t, id)
         case Loaded(v) => |s.locks| == |s.issued| + 1 && s.locks[|s.issued|] == t && v == s.counter
         case _ => |s.locks| == |s.issued| + 1 && s.locks[|s.issued|] == t
  }

  /** The k-th handler to take the mutex gets the k-th id. */
  predicate IssuedInOrder(s: Shared, start: nat) {
    && |s.issued| <= |s.locks|
    && forall k | 0 <= k < |s.issued| :: s.issued[k] == Issue(s.locks[k], ToInt32(CountedOn(start, k + 1)))
  }

  ghost predicate Invariant(s: Shared, start: nat) {
    MutualExclusion(s) && CountFits(s, start) && IssuedInOrder(s, start)
  }

  lemma InitialHolds(start: nat)
    requires start < TWO32
    ensures Invariant(Initial(start), start)
  {
  }

  lemma LockKeeps(s: Shared, start: nat, t: Thread)
    requires Invariant(s, start) && IsEnabled(s, Lock(t))
    ensures Invariant(Act(s, Lock(t)), start)
  {
  }

  lemma LoadKeeps(s: Shared, start: nat, t: Thread)
    requires Invariant(s, start) && IsEnabled(s, Load(t))
    ensures Invariant(Act(s, Load(t)), start)
  {
    assert IsInside(PlaceOf(s, t));
  }

  lemma StoreKeeps(s: Shared, start: nat, t: Thread)
    requires Invariant(s, start) && IsEnabled(s, Store(t))
    ensures Invariant(Act(s, Store(t)), start)
  {
    assert IsInside(PlaceOf(s, t));
    CountOneMore(start, |s.issued|);
    var s' := Act(s, Store(t));
    assert |s'.issued| == |s.issued| + 1;
    assert s'.counter == CountedOn(start, |s.issued| + 1);
  }

  lemma UnlockKeeps(s: Shared, start: nat, t: Thread)
    requires Invariant(s, start) && IsEnabled(s, Unlock(t))
    ensures Invariant(Act(s, Unlock(t)), start)
  {
    assert IsInside(PlaceOf(s, t));
  }

  lemma ActKeeps(s: Shared, start: nat, a: Action)
    requires Invariant(s, start) && IsEnabled(s, a)
    ensures Invariant(Act(s, a), start)
  {
    match a {
      case Call(t) =>
      case Lock(t) => LockKeeps(s, start, t);
      case Load(t) => LoadKeeps(s, start, t);
      case Store(t) => StoreKeeps(s, start, t);
      case Unlock(t) => UnlockKeeps(s, start, t);
    }
  }

  /** Under every interleaving the handlers exclude each other and get their ids in lock order. */
  lemma {:induction false} RunKeeps(s: Shared, start: nat, actions: seq<Action>)
    requires Invariant(s, start) && IsRun(s, actions)
    ensures Invariant(After(s, actions), start)
    decreases |actions|
  {
    if actions != [] {
      ActKeeps(s, start, actions[0]);
      RunKeeps(Act(s, actions[0]), start, actions[1..]);
    }
  }

  /** In every reachable state the k-th id belongs to the k-th handler to take the mutex. */
  lemma IdsInLockOrder(start: nat, actions: seq<Action>, k: nat)
    requires start < TWO32 && IsRun(Initial(start), actions)
    requires k < |After(Initial(start), actions).issued|
    ensures var s := After(Initial(start), actions);
            && |s.issued| <= |s.locks| <= |s.issued| + 1
            && s.issued[k] == Issue(s.locks[k], ToInt32(CountedOn(start, k + 1)))
  {
    InitialHolds(start);
    RunKeeps(Initial(start), start, actions);
  }

  // ---- distinctness ----

  lemma ModOf(k: int, r: int)
    requires 0 <= r < 0x1_0000_0000
    ensures (0x1_0000_0000 * k + r) % 0x1_0000_0000 == r
  {
  }

  lemma SameWord(a: nat, b: nat)
    ensures ToInt32(a) == ToInt32(b) <==> (b - a) % 0x1_0000_0000 == 0
  {
    var m: int, n: int := Wrap32(a), Wrap32(b);
    var k := b / 0x1_0000_0000 - a / 0x1_0000_0000;
    assert b - a == 0x1_0000_0000 * k + (n - m);
    if m <= n {
      ModOf(k, n - m);
    } else {
      ModOf(k - 1, 0x1_0000_0000 + n - m);
    }
  }

  /** Two ids are equal exactly when a multiple of 2^32 requests lies between them. */
  lemma IdsRepeat(start: nat, j: nat, k: nat)
    requires j <= k
    ensures ToInt32(CountedOn(start, j)) == ToInt32(CountedOn(start, k)) <==> (k - j) % 0x1_0000_0000 == 0
  {
    SameWord(start + j, start + k);
    assert ToInt32(CountedOn(start, j)) == ToInt32(start + j);
    assert ToInt32(CountedOn(start, k)) == ToInt32(start + k);
  }

  /** Ids stay distinct as long as fewer than 2^32 of them have been handed out. */
  lemma IdsDistinct(start: nat, actions: seq<Action>, j: nat, k: nat)
    requires start < TWO32 && IsRun(Initial(start), actions)
    requires j < k < |After(Initial(start), actions).issued| && k - j < TWO32
    ensures After(Initial(start), actions).issued[j].id != After(Initial(start), actions).issued[k].id
  {
    IdsInLockOrder(start, actions, j);
    IdsInLockOrder(start, actions, k);
    IdsRepeat(start, j + 1, k + 1);
  }

  /** Two handlers inside at once would share an id: the mutex is what the result rests on. */
  lemma WithoutExclusion(s: Shared, t: Thread, u: Thread)
    requires t != u && PlaceOf(s, t).Entered? && PlaceOf(s, u).Entered?
    ensures var s1 := Act(s, Load(t));
            && IsEnabled(s1, Load(u))
            && var s2 := Act(s1, Load(u));
            && IsEnabled(s2, Store(t))
            && var s3 := Act(s2, Store(t));
            && IsEnabled(s3, Store(u))
            && exists id :: Act(s3, Store(u)).issued == s.issued + [Issue(t, id)] + [Issue(u, id)]
  {
    var id := ToInt32(Wrap32(s.counter + 1));
    assert Act(Act(Act(Act(s, Load(t)), Load(u)), Store(t)), Store(u)).issued
        == s.issued + [Issue(t, id)] + [Issue(u, id)];
  }
}
