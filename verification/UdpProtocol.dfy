/**
 The UDP task and the discovery task around their queue of ten, as interleaved steps. Receipts,
 drops, processed messages and replies are recorded as they happen.
 */
module UdpProtocol {
  import opened CText
  import opened Discovery

  const CAPACITY := 10

  /** The FreeRTOS queue: messages are copied in and out, and a send to a full queue fails. */
  class MessageQueue {
    var items: seq<Message>

    constructor ()
      ensures items == []
    {
      items := [];
    }

    /** `xQueueSend`, after its timeout at the latest. */
    method Send(m: Message) returns (ok: bool)
      modifies this
      ensures ok <==> |old(items)| < 10
      ensures items == if ok then old(items) + [m] else old(items)
    {
      ok := |items| < CAPACITY;
      if ok {
        items := items + [m];
      }
    }

    /** `xQueueReceive`, once there is a message. */
    method Receive() returns (m: Message)
      requires items != []
      modifies this
      ensures m == old(items)[0] && items == old(items)[1..]
    {
      m := items[0];
      items := items[1..];
    }
  }

  /** A datagram that was received, and whether it made it into the queue. */
  datatype Receipt = Receipt(message: Message, kept: bool)

  datatype Protocol = Protocol(
    port: Port,                  // the HTTP port that replies announce
    sock: int,                  // the UDP task's socket
    pending: Option<Message>,   // received, not yet offered to the queue
    queue: seq<Message>,
    current: Option<Message>,   // taken from the queue, not yet processed
    receipts: seq<Receipt>,     // the fate of every datagram offered to the queue, in order
    processed: seq<Message>,    // in order
    replies: seq<Message>)      // replies attempted, in order

  datatype Action =
    | Arrive(datagram: string, source: Address)
    | Offer                     // xQueueSend returns
    | Restart(newSock: int)     // recvfrom failed: another socket is opened
    | Take                      // xQueueReceive returns
    | Process

  predicate IsEnabled(s: Protocol, a: Action) {
    match a
    case Arrive(d, _) => s.pending.None? && IsDatagram(d)
    case Offer => s.pending.Some?
    case Restart(_) => s.pending.None?
    case Take => s.current.None? && s.queue != []
    case Process => s.current.Some?
  }

  function Act(s: Protocol, a: Action): Protocol
    requires IsEnabled(s, a)
  {
    match a
    case Arrive(d, source) => s.(pending := Some(Incoming(d, source, s.sock)))
    case Offer =>
      var m := s.pending.value;
      if |s.queue| < CAPACITY then
        s.(pending := None, queue := s.queue + [m], receipts := s.receipts + [Receipt(m, true)])
      else
        s.(pending := None, receipts := s.receipts + [Receipt(m, false)])
    case Restart(sock) => s.(sock := sock)
    case Take => s.(current := Some(s.queue[0]), queue := s.queue[1..])
    case Process =>
      var m := s.current.value;
      var s' := s.(current := None, processed := s.processed + [m]);
      if IsProbe(m) then s'.(replies := s.replies + [ReplyTo(m, s.port)]) else s'
  }

  predicate IsRun(s: Protocol, actions: seq<Action>)
    decreases |actions|
  {
    actions == [] || (IsEnabled(s, actions[0]) && IsRun(Act(s, actions[0]), actions[1..]))
  }

  function After(s: Protocol, actions: seq<Action>): Protocol
    requires IsRun(s, actions)
    decreases |actions|
  {
    if actions == [] then s else After(Act(s, actions[0]), actions[1..])
  }

  function Initial(port: Port, sock: int): Protocol {
    Protocol(port, sock, None, [], None, [], [], [])
  }

  // ---- what the histories say ----

  /** The messages that made it into the queue, in order. */
  function Kept(rs: seq<Receipt>): seq<Message> {
    if rs == [] then []
    else
      var n := |rs| - 1;
      Kept(rs[..n]) + (if rs[n].kept then [rs[n].message] else [])
  }

  function Dropped(rs: seq<Receipt>): nat {
    if rs == [] then 0 else Dropped(rs[..|rs| - 1]) + (if rs[|rs| - 1].kept then 0 else 1)
  }

  /** The replies that a list of processed messages calls for: one each, to its own source. */
  function RepliesFor(ms: seq<Message>, port: Port): seq<Message> {
    if ms == [] then []
    else
      var n := |ms| - 1;
      RepliesFor(ms[..n], port) + (if IsProbe(ms[n]) then [ReplyTo(ms[n], port)] else [])
  }

  lemma {:induction false} KeptSnoc(rs: seq<Receipt>, r: Receipt)
    ensures Kept(rs + [r]) == Kept(rs) + (if r.kept then [r.message] else [])
    ensures Dropped(rs + [r]) == Dropped(rs) + (if r.kept then 0 else 1)
  {
    assert (rs + [r])[..|rs|] == rs;
  }

  lemma {:induction false} KeptAndDropped(rs: seq<Receipt>)
    ensures |rs| == |Kept(rs)| + Dropped(rs)
  {
    if rs != [] {
      KeptAndDropped(rs[..|rs| - 1]);
    }
  }

  lemma {:induction false} RepliesSnoc(ms: seq<Message>, m: Message, port: Port)
    ensures RepliesFor(ms + [m], port) == RepliesFor(ms, port) + (if IsProbe(m) then [ReplyTo(m, port)] else [])
  {
    assert (ms + [m])[..|ms|] == ms;
  }

  function InHand(s: Protocol): seq<Message> {
    if s.current.Some? then [s.current.value] else []
  }

  ghost predicate Invariant(s: Protocol) {
    && |s.queue| <= CAPACITY
    && Kept(s.receipts) == s.processed + InHand(s) + s.queue
    && s.replies == RepliesFor(s.processed, s.port)
  }

  lemma InitialHolds(port: Port, sock: int)
    ensures Invariant(Initial(port, sock))
  {
  }

  lemma OfferKeeps(s: Protocol)
    requires Invariant(s) && IsEnabled(s, Offer)
    ensures Invariant(Act(s, Offer))
  {
    var m := s.pending.value;
    KeptSnoc(s.receipts, Receipt(m, |s.queue| < CAPACITY));
    assert s.processed + InHand(s) + s.queue + [m] == s.processed + InHand(s) + (s.queue + [m]);
  }

  lemma TakeKeeps(s: Protocol)
    requires Invariant(s) && IsEnabled(s, Take)
    ensures Invariant(Act(s, Take))
  {
    assert s.queue == [s.queue[0]] + s.queue[1..];
    assert s.processed + [] + s.queue == s.processed + [s.queue[0]] + s.queue[1..];
  }

  lemma ProcessKeeps(s: Protocol)
    requires Invariant(s) && IsEnabled(s, Process)
    ensures Invariant(Act(s, Process))
  {
    var m := s.current.value;
    RepliesSnoc(s.processed, m, s.port);
    assert s.processed + [m] + [] == s.processed + [m];
  }

  lemma ActKeeps(s: Protocol, a: Action)
    requires Invariant(s) && IsEnabled(s, a)
    ensures Invariant(Act(s, a))
    ensures Act(s, a).port == s.port
  {
    match a {
      case Arrive(d, source) =>
      case Offer => OfferKeeps(s);
      case Restart(sock) =>
      case Take => TakeKeeps(s);
      case Process => ProcessKeeps(s);
    }
  }

  lemma {:induction false} RunKeeps(s: Protocol, actions: seq<Action>)
    requires Invariant(s) && IsRun(s, actions)
    ensures Invariant(After(s, actions)) && After(s, actions).port == s.port
    decreases |actions|
  {
    if actions != [] {
      ActKeeps(s, actions[0]);
      RunKeeps(Act(s, actions[0]), actions[1..]);
    }
  }

  /** A reply goes to the source and over the socket of its probe, with the port in it. */
  lemma ReplyAnswers(m: Message, port: Port)
    ensures var r := ReplyTo(m, port);
            r.source == m.source && r.sock == m.sock && ReadPort(r.data[..r.length]) == Some(port)
  {
    ResponseReadsBack(port);
    ResponseFits(port);
    assert DataOf(ResponseText(port))[..|ResponseText(port)|] == ResponseText(port);
  }

  lemma {:induction false} RepliesAnswerProbes(ms: seq<Message>, port: Port, r: Message)
    ensures r in RepliesFor(ms, port) <==> exists m :: m in ms && IsProbe(m) && r == ReplyTo(m, port)
  {
    if ms != [] {
      var front, last := ms[..|ms| - 1], ms[|ms| - 1];
      assert ms == front + [last];
      RepliesAnswerProbes(front, port, r);
      RepliesSnoc(front, last, port);
      assert last in ms && forall m | m in front :: m in ms;
    }
  }

  // ---- from the datagrams to the replies ----

  /** The messages made of the datagrams that arrive in a run, in order. */
  function Arrived(s: Protocol, actions: seq<Action>): seq<Message>
    requires IsRun(s, actions)
    decreases |actions|
  {
    if actions == [] then []
    else ArrivedIn(s, actions[0]) + Arrived(Act(s, actions[0]), actions[1..])
  }

  function ArrivedIn(s: Protocol, a: Action): seq<Message>
    requires IsEnabled(s, a)
  {
    if a.Arrive? then [Incoming(a.datagram, a.source, s.sock)] else []
  }

  function MessagesOf(rs: seq<Receipt>): seq<Message> {
    seq(|rs|, i requires 0 <= i < |rs| => rs[i].message)
  }

  /** Everything received: what was offered to the queue, and what is still to be. */
  function Received(s: Protocol): seq<Message> {
    MessagesOf(s.receipts) + if s.pending.Some? then [s.pending.value] else []
  }

  lemma ActReceives(s: Protocol, a: Action)
    requires IsEnabled(s, a)
    ensures Received(Act(s, a)) == Received(s) + ArrivedIn(s, a)
  {
  }

  /** Every datagram that arrives is on record, in order, and nothing else is. */
  lemma {:induction false} ReceivedIsArrived(s: Protocol, actions: seq<Action>)
    requires IsRun(s, actions)
    ensures Received(After(s, actions)) == Received(s) + Arrived(s, actions)
    decreases |actions|
  {
    if actions != [] {
      ActReceives(s, actions[0]);
      ReceivedIsArrived(Act(s, actions[0]), actions[1..]);
      Assoc(Received(s), ArrivedIn(s, actions[0]), Arrived(Act(s, actions[0]), actions[1..]));
    }
  }

  /**
   In every reachable state the queue holds at most ten messages; each datagram that arrived is
   about to be offered, dropped, queued, in hand or processed, and what was not dropped is
   processed in the order of arrival; the replies attempted are those of the processed probes,
   one each.
   */
  lemma ReachableStates(port: Port, sock: int, actions: seq<Action>)
    requires IsRun(Initial(port, sock), actions)
    ensures var s := After(Initial(port, sock), actions);
            var arrived := Arrived(Initial(port, sock), actions);
            && |s.queue| <= 10
            && arrived == Received(s)
            && |arrived| == Dropped(s.receipts) + |s.queue| + |InHand(s)| + |s.processed| + (if s.pending.Some? then 1 else 0)
            && Kept(s.receipts) == s.processed + InHand(s) + s.queue
            && s.replies == RepliesFor(s.processed, port)
  {
    InitialHolds(port, sock);
    RunKeeps(Initial(port, sock), actions);
    ReceivedIsArrived(Initial(port, sock), actions);
    KeptAndDropped(After(Initial(port, sock), actions).receipts);
  }

  lemma {:induction false} KeptWasReceived(rs: seq<Receipt>, m: Message)
    requires m in Kept(rs)
    ensures m in MessagesOf(rs)
  {
    var n := |rs| - 1;
    if m in Kept(rs[..n]) {
      KeptWasReceived(rs[..n], m);
      var i :| 0 <= i < n && MessagesOf(rs[..n])[i] == m;
      assert MessagesOf(rs)[i] == m;
    } else {
      assert MessagesOf(rs)[n] == m;
    }
  }

  /** The socket after some actions: the one of the last restart, if there was one. */
  function SockAfter(sock: int, actions: seq<Action>): int {
    if actions == [] then sock
    else
      var n := |actions| - 1;
      if actions[n].Restart? then actions[n].newSock else SockAfter(sock, actions[..n])
  }

  lemma {:induction false} SockAfterMore(sock: int, first: int, actions: seq<Action>, k: nat)
    requires 0 < k <= |actions|
    requires first == if actions[0].Restart? then actions[0].newSock else sock
    ensures SockAfter(sock, actions[..k]) == SockAfter(first, actions[1..][..k - 1])
  {
    assert actions[..k][..k - 1] == actions[..k - 1];
    if k > 1 {
      assert actions[1..][..k - 1][..k - 2] == actions[1..][..k - 2];
      SockAfterMore(sock, first, actions, k - 1);
    }
  }

  lemma ActSock(s: Protocol, a: Action)
    requires IsEnabled(s, a)
    ensures Act(s, a).sock == if a.Restart? then a.newSock else s.sock
  {
  }

  /** A message made of a datagram of the run, with the socket that was open when it arrived. */
  ghost predicate IsArrival(sock: int, actions: seq<Action>, m: Message) {
    exists k :: 0 <= k < |actions| && ComesFrom(sock, actions, k, m)
  }

  predicate ComesFrom(sock: int, actions: seq<Action>, k: nat, m: Message)
    requires k < |actions|
  {
    var a := actions[k];
    a.Arrive? && IsDatagram(a.datagram) && m == Incoming(a.datagram, a.source, SockAfter(sock, actions[..k]))
  }

  lemma {:induction false} ArrivedAre(s: Protocol, actions: seq<Action>, m: Message)
    requires IsRun(s, actions) && m in Arrived(s, actions)
    ensures IsArrival(s.sock, actions, m)
    decreases |actions|
  {
    if m in ArrivedIn(s, actions[0]) {
      assert ComesFrom(s.sock, actions, 0, m);
    } else {
      var s', rest := Act(s, actions[0]), actions[1..];
      ActSock(s, actions[0]);
      ArrivedAre(s', rest, m);
      var k :| 0 <= k < |rest| && ComesFrom(s'.sock, rest, k, m);
      SockAfterMore(s.sock, s'.sock, actions, k + 1);
      assert ComesFrom(s.sock, actions, k + 1, m);
    }
  }

  /** A datagram of the run that the test takes for a probe, and that a reply answers. */
  predicate Answers(r: Message, a: Action, sock: int, port: Port) {
    && a.Arrive? && (a.datagram <= "alpacadiscovery1" || "alpacadiscovery1" + [NUL] <= a.datagram)
    && r.source == a.source && r.sock == sock
    && r.length <= DATA_SIZE && ReadPort(r.data[..r.length]) == Some(port)
  }

  /**
   End to end: behind every reply of a run there is a datagram of the run that begins the probe
   or continues it behind a NUL, and the reply carries the port to where that datagram came from,
   over the socket that was open then.
   */
  lemma RepliesAnswerDatagrams(port: Port, sock: int, actions: seq<Action>, r: Message)
    requires IsRun(Initial(port, sock), actions)
    requires r in After(Initial(port, sock), actions).replies
    ensures exists k :: 0 <= k < |actions| && Answers(r, actions[k], SockAfter(sock, actions[..k]), port)
  {
    var s := After(Initial(port, sock), actions);
    ReachableStates(port, sock, actions);
    RepliesAnswerProbes(s.processed, port, r);
    var m :| m in s.processed && IsProbe(m) && r == ReplyTo(m, port);
    ProcessedArrived(port, sock, actions, m);
    var k :| 0 <= k < |actions| && ComesFrom(sock, actions, k, m);
    ProbesAre(actions[k].datagram, actions[k].source, SockAfter(sock, actions[..k]));
    ReplyAnswers(m, port);
    assert Answers(r, actions[k], SockAfter(sock, actions[..k]), port);
  }

  lemma ProcessedArrived(port: Port, sock: int, actions: seq<Action>, m: Message)
    requires IsRun(Initial(port, sock), actions)
    requires m in After(Initial(port, sock), actions).processed
    ensures IsArrival(sock, actions, m)
  {
    var s := After(Initial(port, sock), actions);
    ReachableStates(port, sock, actions);
    assert m in Kept(s.receipts);
    KeptWasReceived(s.receipts, m);
    assert m in Received(s);
    ReceivedIsArrived(Initial(port, sock), actions);
    ArrivedAre(Initial(port, sock), actions, m);
  }

  /** A drop happens only when ten messages wait. */
  lemma DropsMeanFull(s: Protocol)
    requires Invariant(s) && IsEnabled(s, Offer)
    ensures Dropped(Act(s, Offer).receipts) > Dropped(s.receipts) <==> |s.queue| == 10
  {
    KeptSnoc(s.receipts, Receipt(s.pending.value, |s.queue| < CAPACITY));
  }

  // ---- one iteration of either loop is two of these steps ----

  /** The UDP task's iteration: a datagram becomes a message and is offered to the queue. */
  method ReceiveAndOffer(queue: MessageQueue, rx: array<char>, received: nat, s: Protocol, source: Address)
    returns (next: Protocol)
    requires rx.Length == DATA_SIZE && received < DATA_SIZE && s.pending.None? && queue.items == s.queue
    modifies queue
    ensures IsEnabled(s, Arrive(rx[..received], source))
    ensures next == Act(Act(s, Arrive(rx[..received], source)), Offer) && queue.items == next.queue
  {
    var m := BuildMessage(rx, received, source, s.sock);
    var ok := queue.Send(m);
    next := s.(queue := queue.items, receipts := s.receipts + [Receipt(m, ok)]);
  }

  /** The discovery task's iteration: a message is taken, tested and answered. */
  method TakeAndProcess(queue: MessageQueue, task: DiscoveryTask, s: Protocol) returns (next: Protocol)
    requires task.Valid() && task.port == s.port
    requires s.current.None? && s.queue != [] && queue.items == s.queue
    modifies queue, task, task.data
    ensures task.Valid()
    ensures IsEnabled(s, Take) && IsEnabled(Act(s, Take), Process)
    ensures next == Act(Act(s, Take), Process) && queue.items == next.queue
  {
    var m := queue.Receive();
    task.Load(m);
    var sent := task.Process();
    next := s.(queue := queue.items, processed := s.processed + [m]);
    if sent.Some? {
      next := next.(replies := s.replies + [sent.value]);
    }
  }
}
