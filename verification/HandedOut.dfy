/**
 The offsets that `parse_string` hands out. They stay good: in the buffer as the scan leaves it,
 each of them is still the C string it was when it was handed out.
 */
module HandedOut {
  import opened CText
  import opened QueryPairs
  import opened RequestText

  // ---- only separators are cut ----

  predicate IsSeparatorAt(s: string, j: int) {
    0 <= j < |s| && (s[j] == '=' || s[j] == '&')
  }

  lemma {:induction false} PairCutsAreSeparators(s: string, end: nat)
    requires KeyLength(s) < |s| <= end
    ensures forall i | i in PairCuts(s, end) :: IsSeparatorAt(s, i - (end - |s|)) && i < end - |Behind(s)|
  {
    assert s[KeyLength(s)] == '=';
    if PairEnd(s) < |s| {
      assert s[KeyLength(s) + 1..][ValueLength(s)] == s[PairEnd(s)];
    }
  }

  /** Only separators of the text are cut. */
  lemma {:induction false} CutsAreSeparators(s: string, end: nat)
    requires |s| <= end
    ensures forall i | i in Cuts(s, end) :: IsSeparatorAt(s, i - (end - |s|))
    decreases |s|
  {
    if KeyLength(s) < |s| {
      var r := Behind(s);
      PairCutsAreSeparators(s, end);
      CutsAreSeparators(r, end);
      SeparatorsBehind(s, r, end, Cuts(r, end));
    }
  }

  lemma SeparatorsBehind(s: string, r: string, end: nat, cuts: seq<nat>)
    requires |r| <= |s| <= end && r == s[|s| - |r|..]
    requires forall i | i in cuts :: IsSeparatorAt(r, i - (end - |r|))
    ensures forall i | i in cuts :: IsSeparatorAt(s, i - (end - |s|))
  {
    forall i | i in cuts
      ensures IsSeparatorAt(s, i - (end - |s|))
    {
      assert IsSeparatorAt(r, i - (end - |r|));
    }
  }

  ghost predicate AllBelow(cuts: seq<nat>, hi: nat) {
    forall i | i in cuts :: i < hi
  }

  ghost predicate AllFrom(cuts: seq<nat>, lo: nat) {
    forall i | i in cuts :: lo <= i
  }

  lemma {:induction false} CutsFrom(s: string, end: nat)
    requires |s| <= end
    ensures AllFrom(Cuts(s, end), end - |s|)
  {
    CutsAreSeparators(s, end);
    forall i | i in Cuts(s, end)
      ensures end - |s| <= i
    {
      assert IsSeparatorAt(s, i - (end - |s|));
    }
  }

  lemma {:induction false} PairCutsBelow(before: seq<nat>, s: string, end: nat)
    requires KeyLength(s) < |s| <= end && AllBelow(before, end - |s|)
    ensures AllBelow(before + PairCuts(s, end), end - |Behind(s)|)
  {
    PairCutsAreSeparators(s, end);
  }

  // ---- every offset reads as its key or value ----

  /** The offsets `p` read as the pair `pair`, and its two strings do not overlap. */
  predicate ReadsAs(b: seq<char>, p: Slices, pair: Pair) {
    && p.key <= |b| && p.value <= |b|
    && TextAt(b, p.key) == pair.key && TextAt(b, p.value) == pair.value
    && p.key + |pair.key| < p.value
  }

  lemma {:induction false} TextEndsBehind(b: seq<char>, s: string, end: nat)
    requires KeyLength(s) < |s| && TextEndsAt(b, s, end)
    ensures TextEndsAt(b, Behind(s), end)
  {
    var r := Behind(s);
    forall i | 0 <= i < |r|
      ensures b[end - |r| + i] == r[i] != NUL
    {
      assert s[|s| - |r| + i] == r[i];
    }
  }

  /** Cuts at the first pair of `s`, before the text and behind the pair leave the pair readable. */
  lemma {:induction false} FirstReads(b: seq<char>, s: string, end: nat, before: seq<nat>, behind: seq<nat>)
    requires KeyLength(s) < |s| && TextEndsAt(b, s, end)
    requires AllBelow(before, end - |s|) && AllFrom(behind, end - |Behind(s)|)
    ensures ReadsAs(Punch(b, before + PairCuts(s, end) + behind), FirstSlices(s, end), FirstPair(s))
  {
    var cuts := before + PairCuts(s, end) + behind;
    OnlyCuts(s, end, before, behind);
    ReadSlice(b, s, end, cuts, 0, KeyLength(s));
    ReadSlice(b, s, end, cuts, KeyLength(s) + 1, PairEnd(s));
  }

  lemma {:induction false} OnlyCuts(s: string, end: nat, before: seq<nat>, behind: seq<nat>)
    requires KeyLength(s) < |s| <= end
    requires AllBelow(before, end - |s|) && AllFrom(behind, end - |Behind(s)|)
    ensures var cuts := before + PairCuts(s, end) + behind;
            && end - |s| + KeyLength(s) in cuts
            && (PairEnd(s) == |s| || end - |s| + PairEnd(s) in cuts)
            && (forall i: nat | end - |s| <= i < end - |s| + PairEnd(s) :: i in cuts ==> i == end - |s| + KeyLength(s))
  {
    PairCutsAt(s, end - |s|, end);
    var cuts := before + PairCuts(s, end) + behind;
    forall i: nat | end - |s| <= i < end - |s| + PairEnd(s) && i in cuts
      ensures i == end - |s| + KeyLength(s)
    {
      assert i in before || i in PairCuts(s, end) || i in behind;
    }
  }

  lemma {:induction false} PairCutsAt(s: string, at: nat, end: nat)
    requires KeyLength(s) < |s| && at + |s| == end
    ensures forall i | i in PairCuts(s, end) :: i == at + KeyLength(s) || i == at + PairEnd(s)
    ensures at + KeyLength(s) in PairCuts(s, end)
    ensures PairEnd(s) == |s| || at + PairEnd(s) in PairCuts(s, end)
    ensures end - |Behind(s)| >= at + PairEnd(s)
  {
  }

  /** All the offsets read as their pairs, behind one another with a byte between strings. */
  ghost predicate AllRead(b: seq<char>, xs: seq<Slices>, ps: seq<Pair>, at: nat) {
    && |xs| == |ps|
    && (forall k | 0 <= k < |ps| :: ReadsAs(b, xs[k], ps[k]))
    && (forall k | 0 <= k < |ps| :: at <= xs[k].key)
    && (forall k, l | 0 <= k < l < |ps| :: xs[k].value + |ps[k].value| < xs[l].key)
  }

  lemma AllReadMore(b: seq<char>, x: Slices, p: Pair, xs: seq<Slices>, ps: seq<Pair>, next: nat)
    requires ReadsAs(b, x, p) && AllRead(b, xs, ps, next)
    requires ps != [] ==> x.value + |p.value| < next
    requires x.key <= next
    ensures AllRead(b, [x] + xs, [p] + ps, x.key)
  {
    var ys, qs := [x] + xs, [p] + ps;
    forall k | 0 <= k < |qs|
      ensures ReadsAs(b, ys[k], qs[k]) && x.key <= ys[k].key && (k > 0 ==> next <= ys[k].key)
    {
      if k > 0 {
        assert ys[k] == xs[k - 1] && qs[k] == ps[k - 1];
      }
    }
    forall k, l | 0 <= k < l < |qs|
      ensures ys[k].value + |qs[k].value| < ys[l].key
    {
      if k > 0 {
        assert xs[k - 1].value + |ps[k - 1].value| < xs[l - 1].key;
      }
    }
  }

  lemma {:induction false} FirstBeforeNext(s: string, end: nat)
    requires KeyLength(s) < |s| <= end
    ensures FirstSlices(s, end).key <= end - |Behind(s)|
    ensures ParsePairs(Behind(s)) != [] ==> FirstSlices(s, end).value + |FirstPair(s).value| < end - |Behind(s)|
  {
  }

  lemma {:induction false} CutsUnfold(before: seq<nat>, s: string, end: nat)
    requires KeyLength(s) < |s| <= end
    ensures before + Cuts(s, end) == before + PairCuts(s, end) + Cuts(Behind(s), end)
  {
    Assoc(before, PairCuts(s, end), Cuts(Behind(s), end));
  }

  /** After the whole scan every offset reads as its pair, and no two strings overlap. */
  lemma {:induction false} OffsetsReadBack(b: seq<char>, s: string, end: nat, before: seq<nat>)
    requires TextEndsAt(b, s, end) && AllBelow(before, end - |s|)
    ensures AllRead(Punch(b, before + Cuts(s, end)), Offsets(s, end), ParsePairs(s), end - |s|)
    decreases |s|
  {
    if KeyLength(s) < |s| {
      TextEndsBehind(b, s, end);
      PairCutsBelow(before, s, end);
      OffsetsReadBack(b, Behind(s), end, before + PairCuts(s, end));
      CutsUnfold(before, s, end);
      CutsFrom(Behind(s), end);
      FirstReads(b, s, end, before, Cuts(Behind(s), end));
      FirstBeforeNext(s, end);
      AllReadMore(Punch(b, before + Cuts(s, end)), FirstSlices(s, end), FirstPair(s),
                  Offsets(Behind(s), end), ParsePairs(Behind(s)), end - |Behind(s)|);
    }
  }

  /** What `parse_string` leaves in the buffer still holds every key and value it handed out. */
  lemma HandedOutStaysGood(was: seq<char>)
    requires NUL in was
    ensures var s := CStr(was);
            AllRead(Punch(was, Cuts(s, |s|)), Offsets(s, |s|), ParsePairs(s), 0)
  {
    var s := CStr(was);
    assert TextEndsAt(was, s, |s|);
    OffsetsReadBack(was, s, |s|, []);
    assert [] + Cuts(s, |s|) == Cuts(s, |s|);
  }

  // ---- exactly the ends are cut ----

  /** The offsets where the strings behind a list of offsets end. */
  function Ends(ps: seq<Pair>, at: seq<Slices>): seq<nat>
    requires |ps| == |at|
  {
    if ps == [] then [] else EndsOfPair(ps[0], at[0]) + Ends(ps[1..], at[1..])
  }

  function EndsOfPair(p: Pair, x: Slices): seq<nat> {
    [x.key + |p.key|, x.value + |p.value|]
  }

  function FirstEnds(s: string, end: nat): seq<nat>
    requires KeyLength(s) < |s| <= end
  {
    EndsOfPair(FirstPair(s), FirstSlices(s, end))
  }

  function EndsOf(s: string, end: nat): seq<nat>
    requires |s| <= end
  {
    Ends(ParsePairs(s), Offsets(s, end))
  }

  lemma {:induction false} EndsUnfold(s: string, end: nat)
    requires KeyLength(s) < |s| <= end
    ensures EndsOf(s, end) == FirstEnds(s, end) + EndsOf(Behind(s), end)
  {
    assert ParsePairs(s) == [FirstPair(s)] + ParsePairs(Behind(s));
    assert Offsets(s, end) == [FirstSlices(s, end)] + Offsets(Behind(s), end);
    EndsMore(FirstPair(s), FirstSlices(s, end), ParsePairs(Behind(s)), Offsets(Behind(s), end));
  }

  lemma {:induction false} EndsMore(p: Pair, x: Slices, ps: seq<Pair>, xs: seq<Slices>)
    requires |ps| == |xs|
    ensures Ends([p] + ps, [x] + xs) == EndsOfPair(p, x) + Ends(ps, xs)
  {
    assert ([p] + ps)[1..] == ps && ([x] + xs)[1..] == xs;
  }

  /**
   The bytes overwritten are those that end a key or a value, in order, except that the last
   value may already end at the terminator of the text.
   */
  lemma {:induction false} CutsAreEnds(s: string, end: nat)
    requires |s| <= end
    ensures Cuts(s, end) == EndsOf(s, end) || Cuts(s, end) + [end] == EndsOf(s, end)
    decreases |s|
  {
    if KeyLength(s) < |s| {
      CutsAreEnds(Behind(s), end);
      EndsUnfold(s, end);
      PairEnds(s, end);
      EndsJoin(PairCuts(s, end), Cuts(Behind(s), end), FirstEnds(s, end), EndsOf(Behind(s), end), end);
    } else {
      assert EndsOf(s, end) == [];
    }
  }

  lemma EndsJoin(cuts: seq<nat>, more: seq<nat>, ends: seq<nat>, moreEnds: seq<nat>, end: nat)
    requires more == moreEnds || more + [end] == moreEnds
    requires cuts == ends || (cuts + [end] == ends && more == moreEnds == [])
    ensures cuts + more == ends + moreEnds || cuts + more + [end] == ends + moreEnds
  {
    assert cuts + more + [end] == cuts + (more + [end]);
    assert more == [] ==> cuts + more + [end] == cuts + [end] + more;
  }

  lemma {:induction false} PairEnds(s: string, end: nat)
    requires KeyLength(s) < |s| <= end
    ensures if PairEnd(s) < |s| then
              PairCuts(s, end) == FirstEnds(s, end)
            else
              && PairCuts(s, end) + [end] == FirstEnds(s, end)
              && Cuts(Behind(s), end) == EndsOf(Behind(s), end) == []
  {
  }
}
