/**
 `parse_string`: the scan of QueryPairs done in place on a NUL-terminated buffer. Each separator
 it consumes becomes a NUL, so that the key and the value can be handed out as C strings that
 live in the buffer itself.
 */
module RequestText {
  import opened CText
  import opened Decimal
  import opened Devices
  import opened Json
  import opened QueryPairs

  // ---- what a pair does to a request ----

  const CLIENT_ID := "ClientID"
  const CLIENT_TRANSACTION_ID := "ClientTransactionID"

  /** The fields of a request that its text can set. */
  datatype Fields = Fields(clientId: int, clientTransactionId: int, body: seq<Item>)

  function ApplyPair(f: Fields, p: Pair, caseSensitive: bool): Fields {
    if SameText(p.key, CLIENT_TRANSACTION_ID, caseSensitive) then
      f.(clientTransactionId := Atoi(p.value))
    else if SameText(p.key, CLIENT_ID, caseSensitive) then
      f.(clientId := Atoi(p.value))
    else
      f.(body := f.body + [Item(p.key, Text(p.value))])
  }

  function ApplyPairs(f: Fields, ps: seq<Pair>, caseSensitive: bool): Fields
    decreases |ps|
  {
    if ps == [] then f
    else ApplyPairs(ApplyPair(f, ps[0], caseSensitive), ps[1..], caseSensitive)
  }

  // ---- what the scan does to the buffer ----

  /**
   The separators that cutting the first pair out of `t` overwrites. A text is placed by the
   offset of its terminator, which stays the same while the scan advances.
   */
  function PairCuts(t: string, end: nat): seq<nat>
    requires KeyLength(t) < |t| <= end
  {
    [end - |t| + KeyLength(t)] + (if PairEnd(t) < |t| then [end - |t| + PairEnd(t)] else [])
  }

  /** The separators that the scan of `s` overwrites. */
  function Cuts(s: string, end: nat): seq<nat>
    requires |s| <= end
    decreases |s|
  {
    if KeyLength(s) == |s| then [] else PairCuts(s, end) + Cuts(Behind(s), end)
  }

  /** The offsets of one pair in the buffer: where its key and its value start. */
  datatype Slices = Slices(key: nat, value: nat)

  function FirstSlices(s: string, end: nat): Slices
    requires KeyLength(s) < |s| <= end
  {
    Slices(end - |s|, end - |s| + KeyLength(s) + 1)
  }

  /** The offsets for the pairs of `s`, when its terminator is at offset `end`. */
  function Offsets(s: string, end: nat): (xs: seq<Slices>)
    requires |s| <= end
    ensures |xs| == |ParsePairs(s)|
    decreases |s|
  {
    if KeyLength(s) == |s| then [] else [FirstSlices(s, end)] + Offsets(Behind(s), end)
  }

  /** The buffer with a NUL at each of the given offsets. */
  function Punch(b: seq<char>, cuts: seq<nat>): (r: seq<char>)
    ensures |r| == |b|
  {
    seq(|b|, i requires 0 <= i < |b| => if i in cuts then NUL else b[i])
  }

  /** The C string that starts at an offset of a buffer. */
  function TextAt(b: seq<char>, at: nat): string
    requires at <= |b|
  {
    CStr(b[at..])
  }

  lemma {:induction false} TextAtIs(b: seq<char>, at: nat, n: nat)
    requires at + n < |b| && b[at + n] == NUL
    requires forall i | at <= i < at + n :: b[i] != NUL
    ensures TextAt(b, at) == b[at..at + n]
  {
    IndexIs(b[at..], NUL, n);
  }

  /** Every text in a terminated buffer ends at a NUL. */
  lemma {:induction false} TextAtEnds(b: seq<char>, at: nat)
    requires at <= |b| && NUL in b[at..]
    ensures var t := TextAt(b, at);
            && at + |t| < |b| && b[at + |t|] == NUL
            && (forall i | at <= i < at + |t| :: b[i] == t[i - at] != NUL)
  {
    var n := Index(b[at..], NUL);
    assert b[at..][n] == NUL;
    assert forall i | at <= i < at + n :: b[at..][i - at] == b[i];
  }

  /** The tails of a text are the texts at later offsets. */
  lemma {:induction false} TextTail(b: seq<char>, at: nat, d: nat)
    requires at <= |b| && NUL in b[at..] && d <= |TextAt(b, at)|
    ensures NUL in b[at + d..] && TextAt(b, at + d) == TextAt(b, at)[d..]
  {
    TextAtEnds(b, at);
    var n := |TextAt(b, at)|;
    TextAtIs(b, at + d, n - d);
    assert b[at + d..][n - d] == NUL;
  }

  /** A text inside a buffer, by the offset of its terminator. */
  ghost predicate TextEndsAt(b: seq<char>, s: string, end: nat) {
    && |s| <= end < |b| && b[end] == NUL
    && forall i | 0 <= i < |s| :: b[end - |s| + i] == s[i] != NUL
  }

  /** A cut ends the key, and another the value unless the text does; none is inside them. */
  lemma {:induction false} PairCutsEnd(t: string, end: nat, cuts: seq<nat>)
    requires KeyLength(t) < |t| <= end && cuts == PairCuts(t, end)
    ensures end - |t| + KeyLength(t) in cuts
    ensures PairEnd(t) == |t| || end - |t| + PairEnd(t) in cuts
    ensures forall i: nat | end - |t| <= i < end - |t| + KeyLength(t) :: i !in cuts
    ensures forall i: nat | end - |t| + (KeyLength(t) + 1) <= i < end - |t| + PairEnd(t) :: i !in cuts
  {
    assert cuts[0] == end - |t| + KeyLength(t);
    if PairEnd(t) < |t| {
      assert cuts[1] == end - |t| + PairEnd(t);
    }
  }

  /** What is read where the key and the value of a pair that was cut out start. */
  lemma {:induction false} ReadPair(b: seq<char>, at: nat, t: string, end: nat, v: nat)
    requires TextEndsAt(b, t, end) && KeyLength(t) < |t|
    requires at == end - |t| && v == end - |t| + (KeyLength(t) + 1)
    ensures var cut := Punch(b, PairCuts(t, end));
            v <= |cut| && TextAt(cut, at) == FirstPair(t).key && TextAt(cut, v) == FirstPair(t).value
  {
    var cuts := PairCuts(t, end);
    PairCutsEnd(t, end, cuts);
    assert at == end - |t| + 0;
    ReadSlice(b, t, end, cuts, 0, KeyLength(t));
    ReadSlice(b, t, end, cuts, KeyLength(t) + 1, PairEnd(t));
  }

  lemma {:induction false} TextAtEndsAt(b: seq<char>, at: nat, t: string, end: nat)
    requires at <= |b| && NUL in b[at..] && TextAt(b, at) == t && at + |t| == end
    ensures TextEndsAt(b, t, end) && at == end - |t|
  {
    TextAtEnds(b, at);
  }

  /** A part of a text with no cut inside and one behind it, or the terminator. */
  lemma {:induction false} ReadSlice(b: seq<char>, t: string, end: nat, cuts: seq<nat>, lo: nat, hi: nat)
    requires TextEndsAt(b, t, end) && lo <= hi <= |t|
    requires forall i: nat | end - |t| + lo <= i < end - |t| + hi :: i !in cuts
    requires hi == |t| || end - |t| + hi in cuts
    ensures TextAt(Punch(b, cuts), end - |t| + lo) == t[lo..hi]
  {
    var cut, at := Punch(b, cuts), end - |t| + lo;
    forall i | at <= i < at + (hi - lo)
      ensures cut[i] == t[lo..hi][i - at] != NUL
    {
      assert b[end - |t| + (i - at + lo)] == t[i - at + lo];
    }
    TextAtIs(cut, at, hi - lo);
  }

  // ---- the loop ----

  class AlpacaRequest {
    var body: TreeId
    var clientId: int
    var clientTransactionId: int
    var serverTransactionId: int
    var deviceNumber: nat
    var deviceType: DeviceType

    ghost function State(heap: JsonHeap): Fields
      requires body in heap.trees
      reads this, heap
    {
      Fields(clientId, clientTransactionId, heap.trees[body])
    }

    constructor ()
    {
      body, clientId, clientTransactionId := 0, 0, 0;
      serverTransactionId, deviceNumber, deviceType := 0, 0, Unknown;
    }
  }

  lemma {:induction false} ApplyStep(f: Fields, t: string, caseSensitive: bool)
    requires KeyLength(t) < |t|
    ensures ApplyPairs(f, ParsePairs(t), caseSensitive)
         == ApplyPairs(ApplyPair(f, FirstPair(t), caseSensitive), ParsePairs(Behind(t)), caseSensitive)
  {
    assert ParsePairs(t)[1..] == ParsePairs(Behind(t));
  }

  /** `strstr` in the buffer: the offset of the next `c` in the text at `from`. */
  function StrChrAt(b: seq<char>, from: nat, c: char): Option<nat>
    requires from <= |b|
  {
    match StrChr(b[from..], c)
    case None => None
    case Some(i) => Some(from + i)
  }

  /** What is overwritten for the result of the second `strstr`, and where the scan goes on. */
  function AmpCuts(amp: Option<nat>): seq<nat> {
    if amp.None? then [] else [amp.value]
  }

  function AmpNext(amp: Option<nat>): Option<nat> {
    if amp.None? then None else Some(amp.value + 1)
  }

  lemma {:induction false} FindAmp(was: seq<char>, at: nat, t: string, b: seq<char>, v: nat)
    requires at <= |was| && NUL in was[at..] && TextAt(was, at) == t
    requires KeyLength(t) < |t| && v == at + KeyLength(t) + 1
    requires v <= |b| == |was| && b[v..] == was[v..]
    ensures StrChrAt(b, v, '&') == if PairEnd(t) == |t| then None else Some(at + PairEnd(t))
  {
    TextTail(was, at, KeyLength(t) + 1);
  }

  /** The cuts of a pair by the offset of its text. */
  lemma {:induction false} PairCutsFrom(t: string, at: nat, end: nat)
    requires at + |t| == end && KeyLength(t) < |t|
    ensures PairCuts(t, end) == [at + KeyLength(t)] + (if PairEnd(t) == |t| then [] else [at + PairEnd(t)])
    ensures PairEnd(t) < |t| ==> end - |Behind(t)| == at + PairEnd(t) + 1
  {
    assert end - |t| == at;
  }

  lemma {:induction false} AmpEndsPair(t: string, at: nat, end: nat, v: nat, amp: Option<nat>)
    requires at + |t| == end && KeyLength(t) < |t| && v == at + KeyLength(t) + 1
    requires amp == if PairEnd(t) == |t| then None else Some(at + PairEnd(t))
    ensures [v - 1] + AmpCuts(amp) == PairCuts(t, end)
    ensures AmpNext(amp) == if PairEnd(t) == |t| then None else Some(end - |Behind(t)|)
  {
    PairCutsFrom(t, at, end);
    assert v - 1 == at + KeyLength(t);
  }

  method WriteNul(buf: array<char>, i: nat)
    requires i < buf.Length
    modifies buf
    ensures buf[..] == Punch(old(buf[..]), [i])
  {
    buf[i] := NUL;
  }

  lemma {:induction false} PunchMore(b: seq<char>, cuts: seq<nat>, more: seq<nat>)
    ensures Punch(Punch(b, cuts), more) == Punch(b, cuts + more)
  {
  }

  /** The first `strstr` and its write. */
  method CutKey(buf: array<char>, at: nat, ghost t: string) returns (value: Option<nat>)
    requires at <= buf.Length && NUL in buf[..][at..] && TextAt(buf[..], at) == t
    modifies buf
    ensures KeyLength(t) == |t| ==> value == None && buf[..] == old(buf[..])
    ensures KeyLength(t) < |t| ==>
              value == Some(at + KeyLength(t) + 1) && buf[..] == Punch(old(buf[..]), [at + KeyLength(t)])
  {
    var equals := StrChrAt(buf[..], at, '=');
    if equals.None? {
      return None;
    }
    WriteNul(buf, equals.value);
    value := Some(equals.value + 1);
  }

  lemma PunchNothing(b: seq<char>)
    ensures Punch(b, []) == b
  {
  }

  lemma PunchBehind(b: seq<char>, v: nat)
    requires 0 < v <= |b|
    ensures Punch(b, [v - 1])[v..] == b[v..]
  {
  }

  /** The second `strstr` and its write. */
  method CutAmp(buf: array<char>, v: nat) returns (next: Option<nat>)
    requires v <= buf.Length
    modifies buf
    ensures next == AmpNext(StrChrAt(old(buf[..]), v, '&'))
    ensures buf[..] == Punch(old(buf[..]), AmpCuts(StrChrAt(old(buf[..]), v, '&')))
  {
    var amp := StrChrAt(buf[..], v, '&');
    next := None;
    PunchNothing(buf[..]);
    if amp.Some? {
      WriteNul(buf, amp.value);
      next := Some(amp.value + 1);
    }
  }

  /** Both, once the '=' before `v` is gone. */
  method CutValue(buf: array<char>, v: nat, ghost was: seq<char>, ghost at: nat, ghost t: string, ghost end: nat)
    returns (next: Option<nat>)
    requires at <= |was| && NUL in was[at..] && TextAt(was, at) == t && at + |t| == end
    requires KeyLength(t) < |t| && v == at + KeyLength(t) + 1 <= |was| && buf[..] == Punch(was, [v - 1])
    modifies buf
    ensures next == if PairEnd(t) == |t| then None else Some(end - |Behind(t)|)
    ensures buf[..] == Punch(was, PairCuts(t, end))
  {
    ghost var b := buf[..];
    PunchBehind(was, v);
    FindAmp(was, at, t, b, v);
    AmpEndsPair(t, at, end, v, StrChrAt(b, v, '&'));
    PunchMore(was, [v - 1], AmpCuts(StrChrAt(b, v, '&')));
    next := CutAmp(buf, v);
  }

  /** The first half of an iteration: cut the next pair out of the text `t` at `at`. */
  method TakePair(buf: array<char>, at: nat, ghost t: string, ghost end: nat)
    returns (value: Option<nat>, next: Option<nat>)
    requires at <= buf.Length && NUL in buf[..][at..] && TextAt(buf[..], at) == t && at + |t| == end
    modifies buf
    ensures if KeyLength(t) == |t| then
              value == None && next == None && buf[..] == old(buf[..])
            else
              && value == Some(at + KeyLength(t) + 1)
              && next == (if PairEnd(t) == |t| then None else Some(end - |Behind(t)|))
              && buf[..] == Punch(old(buf[..]), PairCuts(t, end))
  {
    ghost var was := buf[..];
    value := CutKey(buf, at, t);
    next := None;
    if value.Some? {
      assert value.value - 1 == at + KeyLength(t);
      next := CutValue(buf, value.value, was, at, t, end);
    }
  }

  /** The second half of an iteration: an id is converted, anything else joins the body. */
  method Store(req: AlpacaRequest, heap: JsonHeap, key: string, value: string, caseSensitive: bool)
    requires heap.Valid() && req.body in heap.trees
    modifies heap`trees, req`clientId, req`clientTransactionId
    ensures heap.Valid() && req.body in heap.trees
    ensures req.State(heap) == ApplyPair(old(req.State(heap)), Pair(key, value), caseSensitive)
    ensures heap.trees == old(heap.trees)[req.body := heap.trees[req.body]]
  {
    if SameText(key, CLIENT_TRANSACTION_ID, caseSensitive) {
      req.clientTransactionId := Atoi(value);
    } else if SameText(key, CLIENT_ID, caseSensitive) {
      req.clientId := Atoi(value);
    } else {
      heap.Add(req.body, Item(key, Text(value)));
    }
  }

  /** The buffer `b`, once `was`, when `t` is still to be scanned and `done` has been cut. */
  ghost predicate Scanning(was: seq<char>, b: seq<char>, t: string, done: seq<nat>) {
    var s := CStr(was);
    && NUL in was && |t| <= |s| && t == s[|s| - |t|..]
    && b == Punch(was, done)
    && (forall i | i in done :: i < |s| - |t|)
  }

  lemma {:induction false} ScanningText(was: seq<char>, b: seq<char>, t: string, done: seq<nat>, q: nat)
    requires Scanning(was, b, t, done) && q == |CStr(was)| - |t|
    ensures q <= |b| && NUL in b[q..] && TextAt(b, q) == t
  {
    assert was[0..] == was;
    TextTail(was, 0, q);
    assert b[q..] == was[q..];
  }

  lemma {:induction false} ScanningStep(was: seq<char>, b: seq<char>, t: string, done: seq<nat>, n: nat)
    requires Scanning(was, b, t, done) && n == |CStr(was)| && KeyLength(t) < |t|
    ensures Scanning(was, Punch(b, PairCuts(t, n)), Behind(t), done + PairCuts(t, n))
  {
    var cuts, r := PairCuts(t, n), Behind(t);
    assert Punch(b, cuts) == Punch(was, done + cuts) by {
      PunchMore(was, done, cuts);
    }
    assert forall i | i in done + cuts :: i < n - |r| by {
      PairCutsBefore(t, n);
    }
    assert r == CStr(was)[n - |r|..];
  }

  lemma {:induction false} PairCutsBefore(t: string, end: nat)
    requires KeyLength(t) < |t| <= end
    ensures forall i | i in PairCuts(t, end) :: i < end - |Behind(t)|
  {
  }

  /** What has been cut and handed out and what will be make up that of the whole text. */
  ghost predicate Progress(s: string, t: string, end: nat, done: seq<nat>, handed: seq<Slices>) {
    && |t| <= end && |s| <= end
    && done + Cuts(t, end) == Cuts(s, end)
    && handed + Offsets(t, end) == Offsets(s, end)
  }

  lemma {:induction false} ProgressStep(s: string, t: string, end: nat, done: seq<nat>, handed: seq<Slices>)
    requires Progress(s, t, end, done, handed) && KeyLength(t) < |t|
    ensures Progress(s, Behind(t), end, done + PairCuts(t, end), handed + [FirstSlices(t, end)])
  {
    Assoc(done, PairCuts(t, end), Cuts(Behind(t), end));
    Assoc(handed, [FirstSlices(t, end)], Offsets(Behind(t), end));
  }

  lemma {:induction false} ProgressDone(s: string, t: string, end: nat, done: seq<nat>, handed: seq<Slices>)
    requires Progress(s, t, end, done, handed) && KeyLength(t) == |t|
    ensures ParsePairs(t) == [] && done == Cuts(s, end) && handed == Offsets(s, end)
  {
  }

  /** All that the loop keeps track of, when `t` is still to be scanned. */
  ghost predicate Scanned(was: seq<char>, b: seq<char>, t: string, done: seq<nat>, handed: seq<Slices>) {
    Scanning(was, b, t, done) && Progress(CStr(was), t, |CStr(was)|, done, handed)
  }

  lemma {:induction false} ScannedStart(was: seq<char>)
    requires NUL in was
    ensures Scanned(was, was, CStr(was), [], [])
  {
    PunchNothing(was);
  }

  lemma {:induction false} ScannedStep(was: seq<char>, b: seq<char>, t: string, done: seq<nat>, handed: seq<Slices>, n: nat)
    requires Scanned(was, b, t, done, handed) && n == |CStr(was)| && KeyLength(t) < |t|
    ensures Scanned(was, Punch(b, PairCuts(t, n)), Behind(t), done + PairCuts(t, n), handed + [FirstSlices(t, n)])
  {
    ScanningStep(was, b, t, done, n);
    ProgressStep(CStr(was), t, n, done, handed);
  }

  lemma {:induction false} ScannedEnd(was: seq<char>, b: seq<char>, t: string, done: seq<nat>, handed: seq<Slices>, n: nat)
    requires Scanned(was, b, t, done, handed) && n == |CStr(was)| && KeyLength(t) == |t|
    ensures ParsePairs(t) == []
    ensures b == Punch(was, Cuts(CStr(was), n)) && handed == Offsets(CStr(was), n)
  {
    ProgressDone(CStr(was), t, n, done, handed);
  }

  /** One iteration, when the text at `at` is `t`. */
  method StorePair(req: AlpacaRequest, heap: JsonHeap, buf: array<char>, at: nat, caseSensitive: bool,
                   ghost t: string, ghost end: nat)
    returns (found: bool, next: Option<nat>, ghost place: Slices)
    requires at <= buf.Length && NUL in buf[..][at..] && TextAt(buf[..], at) == t && at + |t| == end
    requires heap.Valid() && req.body in heap.trees
    modifies heap`trees, req`clientId, req`clientTransactionId, buf
    ensures heap.Valid() && req.body in heap.trees
    ensures found == (KeyLength(t) < |t|)
    ensures !found ==> buf[..] == old(buf[..]) && heap.trees == old(heap.trees) && req.State(heap) == old(req.State(heap))
    ensures found ==>
              && place == FirstSlices(t, end)
              && next == (if PairEnd(t) == |t| then None else Some(end - |Behind(t)|))
              && buf[..] == Punch(old(buf[..]), PairCuts(t, end))
              && req.State(heap) == ApplyPair(old(req.State(heap)), FirstPair(t), caseSensitive)
              && heap.trees == old(heap.trees)[req.body := heap.trees[req.body]]
  {
    ghost var b := buf[..];
    var value;
    value, next := TakePair(buf, at, t, end);
    found := value.Some?;
    place := Slices(at, if found then value.value else at);
    if found {
      TextAtEndsAt(b, at, t, end);
      ReadPair(b, at, t, end, value.value);
      var k, v := TextAt(buf[..], at), TextAt(buf[..], value.value);
      assert Pair(k, v) == FirstPair(t);
      Store(req, heap, k, v, caseSensitive);
    }
  }

  lemma {:induction false} UpdateTwice<X, Y>(m: map<X, Y>, k: X, y: Y, z: Y)
    ensures m[k := y][k := z] == m[k := z]
  {
  }

  /**
   The request ends up as the pure scan says, and exactly the consumed separators of the buffer
   have become NULs. `handed` is where the keys and values were handed out.
   */
  method ParseString(req: AlpacaRequest, heap: JsonHeap, buf: array<char>, caseSensitive: bool)
    returns (ghost handed: seq<Slices>)
    requires NUL in buf[..]
    requires heap.Valid() && req.body in heap.trees
    modifies heap`trees, req`clientId, req`clientTransactionId, buf
    ensures heap.Valid() && req.body in heap.trees
    ensures req.State(heap) == ApplyPairs(old(req.State(heap)), ParsePairs(CStr(old(buf[..]))), caseSensitive)
    ensures heap.trees == old(heap.trees)[req.body := heap.trees[req.body]]
    ensures var s := CStr(old(buf[..]));
            buf[..] == Punch(old(buf[..]), Cuts(s, |s|)) && handed == Offsets(s, |s|)
  {
    ghost var was, n := buf[..], |CStr(buf[..])|;
    ghost var result := ApplyPairs(req.State(heap), ParsePairs(CStr(was)), caseSensitive);
    ghost var t, done := CStr(was), [];
    handed := [];
    ScannedStart(was);
    var query := Some(0);
    while query.Some?
      invariant Scanned(was, buf[..], t, done, handed)
      invariant if query.Some? then query.value == n - |t| else t == []
      invariant heap.Valid() && req.body in heap.trees
      invariant ApplyPairs(req.State(heap), ParsePairs(t), caseSensitive) == result
      invariant heap.trees == old(heap.trees)[req.body := heap.trees[req.body]]
      decreases query.Some?, |t|
    {
      var key := query.value;
      ghost var b, f := buf[..], req.State(heap);
      ScanningText(was, b, t, done, key);
      var found, next, place := StorePair(req, heap, buf, key, caseSensitive, t, n);
      if !found {
        break;
      }
      ScannedStep(was, b, t, done, handed, n);
      ApplyStep(f, t, caseSensitive);
      UpdateTwice(old(heap.trees), req.body, f.body, heap.trees[req.body]);
      done, handed := done + PairCuts(t, n), handed + [place];
      query, t := next, Behind(t);
    }
    ScannedEnd(was, buf[..], t, done, handed, n);
  }
}
