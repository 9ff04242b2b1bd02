/**
 The greedy scan of `parse_string` as a pure parser, its printer, and the comparison with the
 application/x-www-form-urlencoded parser of the WHATWG URL Standard, section 5.1.
 */
module QueryPairs {
  import opened CText

  datatype Pair = Pair(key: string, value: string)

  /** The length of the first key of `t`; the whole of `t` when it holds no pair. */
  function KeyLength(t: string): (e: nat)
    ensures e <= |t|
  {
    Index(t, '=')
  }

  /** The length of the first value. */
  function ValueLength(t: string): (a: nat)
    requires KeyLength(t) < |t|
    ensures KeyLength(t) + 1 + a <= |t|
  {
    Index(t[KeyLength(t) + 1..], '&')
  }

  /** Where the first pair ends: at an '&' or at the end of the text. */
  function PairEnd(t: string): (end: nat)
    requires KeyLength(t) < |t|
    ensures KeyLength(t) < end <= |t|
  {
    KeyLength(t) + 1 + ValueLength(t)
  }

  /** The text behind the first pair, nothing when the pair is the last one. */
  function Behind(t: string): (r: string)
    requires KeyLength(t) < |t|
    ensures |r| < |t| && r == t[|t| - |r|..]
  {
    if PairEnd(t) == |t| then [] else t[PairEnd(t) + 1..]
  }

  function FirstPair(t: string): Pair
    requires KeyLength(t) < |t|
  {
    Pair(t[..KeyLength(t)], t[KeyLength(t) + 1..PairEnd(t)])
  }

  /**
   The pairs found by one left-to-right scan: a key runs up to the next '=', whatever '&' it
   contains, and its value up to the next '&'. Text without '=' ends the scan.
   */
  function ParsePairs(s: string): seq<Pair>
    decreases |s|
  {
    if KeyLength(s) == |s| then [] else [FirstPair(s)] + ParsePairs(Behind(s))
  }

  /** The text behind the last value, with the '&' that ended it. */
  function Residue(s: string): string
    decreases |s|
  {
    if KeyLength(s) == |s| then s
    else if PairEnd(s) == |s| then []
    else if ParsePairs(Behind(s)) == [] then "&" + Behind(s)
    else Residue(Behind(s))
  }

  /** The printer: '=' behind each key, '&' between pairs. */
  function Join(ps: seq<Pair>): string {
    if ps == [] then []
    else if |ps| == 1 then ps[0].key + "=" + ps[0].value
    else ps[0].key + "=" + ps[0].value + "&" + Join(ps[1..])
  }

  predicate IsScannable(p: Pair) {
    '=' !in p.key && '&' !in p.value
  }

  predicate AllScannable(ps: seq<Pair>) {
    forall i | 0 <= i < |ps| :: IsScannable(ps[i])
  }

  /** What may be left over behind pairs: no '=', and a separator first when there are pairs. */
  predicate IsResidueOf(r: string, ps: seq<Pair>) {
    '=' !in r && (ps != [] && r != [] ==> r[0] == '&')
  }

  // ---- the printer is an exact inverse ----

  /** A text cut at the first occurrence of a character. */
  lemma Cut(s: string, c: char) returns (front: string, back: string)
    requires c in s
    ensures c !in front && s == front + [c] + back
    ensures |front| + 1 + |back| == |s|
  {
    var i := Index(s, c);
    front, back := s[..i], s[i + 1..];
    assert s == s[..i] + [s[i]] + s[i + 1..];
  }

  /** The first pair of a text that was put together from its pieces. */
  lemma FirstPairIs(k: string, v: string, tail: string)
    requires '=' !in k && '&' !in v && (tail == [] || tail[0] == '&')
    ensures var s := k + "=" + v + tail;
            && KeyLength(s) == |k| < |s| && PairEnd(s) == |k| + 1 + |v|
            && FirstPair(s) == Pair(k, v)
            && Behind(s) == if tail == [] then [] else tail[1..]
  {
    var s := k + "=" + v + tail;
    IndexIs(s, '=', |k|);
    var rest := s[|k| + 1..];
    assert rest == v + tail;
    IndexIs(rest, '&', |v|);
    assert s[..|k|] == k && s[|k| + 1..|k| + 1 + |v|] == v;
    assert s[|k| + 1 + |v|..] == tail;
  }

  /** The scan of a last pair. */
  lemma ScanLast(k: string, v: string)
    requires '=' !in k && '&' !in v
    ensures ParsePairs(k + "=" + v) == [Pair(k, v)]
    ensures Residue(k + "=" + v) == []
  {
    var s := k + "=" + v;
    assert s + [] == s;
    FirstPairIs(k, v, []);
    assert ParsePairs([]) == [];
  }

  /** The scan of a pair with a separator behind it. */
  lemma ScanMore(k: string, v: string, t: string)
    requires '=' !in k && '&' !in v
    ensures ParsePairs(k + "=" + v + "&" + t) == [Pair(k, v)] + ParsePairs(t)
    ensures Residue(k + "=" + v + "&" + t) == if ParsePairs(t) == [] then "&" + t else Residue(t)
  {
    FirstPairIs(k, v, "&" + t);
    Assoc(k + "=" + v, "&", t);
    assert ("&" + t)[1..] == t;
  }

  /** What it takes for a list and a rest to be the reading of a text. */
  predicate IsReading(s: string, ps: seq<Pair>, r: string) {
    s == Join(ps) + r && AllScannable(ps) && IsResidueOf(r, ps)
  }

  lemma ReadingLast(p: Pair)
    requires IsScannable(p)
    ensures IsReading(p.key + "=" + p.value, [p], [])
  {
    assert Join([p]) + [] == p.key + "=" + p.value;
  }

  /** A pair in front of a reading. */
  lemma ReadingMore(p: Pair, t: string, ps: seq<Pair>, r: string)
    requires IsScannable(p) && IsReading(t, ps, r)
    ensures IsReading(p.key + "=" + p.value + "&" + t, [p] + ps, if ps == [] then "&" + t else r)
  {
    var qs := [p] + ps;
    if ps != [] {
      assert qs[1..] == ps;
      var head := p.key + "=" + p.value + "&";
      assert Join(qs) == head + Join(ps);
      assert head + (Join(ps) + r) == head + Join(ps) + r;
    } else {
      assert t == r;
      assert Join(qs) == p.key + "=" + p.value;
    }
  }

  predicate ScanIsReading(s: string) {
    IsReading(s, ParsePairs(s), Residue(s))
  }

  lemma ScanPrintsMore(k: string, v: string, t: string)
    requires '=' !in k && '&' !in v && ScanIsReading(t)
    ensures ScanIsReading(k + "=" + v + "&" + t)
  {
    ScanMore(k, v, t);
    NoPairs(t);
    ReadingMore(Pair(k, v), t, ParsePairs(t), Residue(t));
  }

  lemma {:induction false} ScanPrints(s: string)
    ensures ScanIsReading(s)
    decreases |s|
  {
    if '=' !in s {
      NoPairs(s);
      assert s == Join([]) + s;
    } else {
      var k, rest := Cut(s, '=');
      if '&' in rest {
        var v, t := Cut(rest, '&');
        assert s == k + "=" + v + "&" + t;
        ScanPrints(t);
        ScanPrintsMore(k, v, t);
      } else {
        assert s == k + "=" + rest;
        ScanLast(k, rest);
        ReadingLast(Pair(k, rest));
      }
    }
  }

  /** The scan finds no pair exactly in a text without '='; all of it is left over. */
  lemma NoPairs(s: string)
    ensures ParsePairs(s) == [] <==> '=' !in s
    ensures '=' !in s ==> Residue(s) == s
  {
    if '=' !in s {
      IndexIs(s, '=', |s|);
    }
  }

  lemma {:induction false} ScanReads(ps: seq<Pair>, r: string)
    requires AllScannable(ps) && IsResidueOf(r, ps)
    ensures ParsePairs(Join(ps) + r) == ps
    ensures Residue(Join(ps) + r) == r
  {
    if ps == [] {
      assert Join(ps) + r == r;
      NoPairs(r);
    } else if |ps| > 1 {
      ScanReads(ps[1..], r);
      ScanReadsMore(ps, r, Join(ps[1..]) + r);
    } else {
      ScanReadsLast(ps[0], r);
      assert ps == [ps[0]];
    }
  }

  lemma JoinMore(ps: seq<Pair>, r: string)
    requires |ps| > 1
    ensures Join(ps) + r == ps[0].key + "=" + ps[0].value + "&" + (Join(ps[1..]) + r)
  {
    Assoc(ps[0].key + "=" + ps[0].value + "&", Join(ps[1..]), r);
  }

  lemma ScanReadsMore(ps: seq<Pair>, r: string, t: string)
    requires |ps| > 1 && IsScannable(ps[0])
    requires t == Join(ps[1..]) + r
    requires ParsePairs(t) == ps[1..] && Residue(t) == r
    ensures ParsePairs(Join(ps) + r) == ps
    ensures Residue(Join(ps) + r) == r
  {
    JoinMore(ps, r);
    ScanMore(ps[0].key, ps[0].value, t);
    assert ps == [ps[0]] + ps[1..];
  }

  lemma ScanReadsLast(p: Pair, r: string)
    requires IsScannable(p) && IsResidueOf(r, [p])
    ensures ParsePairs(Join([p]) + r) == [p]
    ensures Residue(Join([p]) + r) == r
  {
    assert Join([p]) == p.key + "=" + p.value;
    if r == [] {
      ScanLast(p.key, p.value);
      assert Join([p]) + r == p.key + "=" + p.value;
    } else {
      var t := r[1..];
      assert r == "&" + t;
      assert Join([p]) + r == p.key + "=" + p.value + "&" + t;
      ScanMore(p.key, p.value, t);
      NoPairs(t);
    }
  }

  /**
   Every text has exactly one decomposition into scannable pairs and a residue, and the scan
   finds it.
   */
  lemma ScanIsTheOnlyReading(s: string, ps: seq<Pair>, r: string)
    ensures IsReading(s, ps, r) <==> ps == ParsePairs(s) && r == Residue(s)
  {
    ScanPrints(s);
    if IsReading(s, ps, r) {
      ScanReads(ps, r);
    }
  }

  // ---- section 5.1 of the URL Standard ----

  /** The pieces between the '&' of a text. */
  function Split(s: string): (pieces: seq<string>)
    ensures pieces != []
    decreases |s|
  {
    var a := Index(s, '&');
    if a == |s| then [s] else [s[..a]] + Split(s[a + 1..])
  }

  /** The pair of one nonempty piece; a piece without '=' has an empty value. */
  function PiecePair(piece: string): Pair {
    var e := Index(piece, '=');
    if e == |piece| then Pair(piece, []) else Pair(piece[..e], piece[e + 1..])
  }

  /** The standard's list before '+' and '%' are decoded: empty pieces are skipped. */
  function PiecePairs(pieces: seq<string>): seq<Pair> {
    if pieces == [] then []
    else (if pieces[0] == [] then [] else [PiecePair(pieces[0])]) + PiecePairs(pieces[1..])
  }

  function SplitPairs(s: string): seq<Pair> {
    PiecePairs(Split(s))
  }

  /** Every piece has its own '=', except that empty pieces may end the text. */
  predicate AllSeparated(pieces: seq<string>) {
    if pieces == [] then true
    else if '=' in pieces[0] then AllSeparated(pieces[1..])
    else forall i | 0 <= i < |pieces| :: pieces[i] == []
  }

  lemma {:induction false} EmptyPieces(pieces: seq<string>)
    requires forall i | 0 <= i < |pieces| :: pieces[i] == []
    ensures PiecePairs(pieces) == []
  {
    if pieces != [] {
      EmptyPieces(pieces[1..]);
    }
  }

  /** Splitting takes the text up to the first '&' off the front. */
  lemma SplitMore(piece: string, t: string)
    requires '&' !in piece
    ensures Split(piece) == [piece]
    ensures Split(piece + "&" + t) == [piece] + Split(t)
  {
    IndexIs(piece, '&', |piece|);
    var s := piece + "&" + t;
    IndexIs(s, '&', |piece|);
    assert s[..|piece|] == piece && s[|piece| + 1..] == t;
  }

  lemma {:induction false} SplitOf(s: string)
    ensures forall p | p in Split(s) :: '&' !in p
    ensures '=' in s <==> exists p :: p in Split(s) && '=' in p
    decreases |s|
  {
    if '&' in s {
      var piece, t := Cut(s, '&');
      assert s == piece + "&" + t;
      SplitMore(piece, t);
      SplitOf(t);
      assert piece in Split(s);
      assert forall p | p in Split(t) :: p in Split(s);
    } else {
      SplitMore(s, []);
      assert s in Split(s);
    }
  }

  /** Both readings of a piece with an '=', alone and in front of more text. */
  lemma SeparatedHead(piece: string, t: string)
    requires '&' !in piece && '=' in piece
    ensures ParsePairs(piece) == SplitPairs(piece) == [PiecePair(piece)]
    ensures var s := piece + "&" + t;
            && ParsePairs(s) == [PiecePair(piece)] + ParsePairs(t)
            && SplitPairs(s) == [PiecePair(piece)] + SplitPairs(t)
  {
    SplitMore(piece, t);
    assert ([piece] + Split(t))[1..] == Split(t);
    assert PiecePairs([piece]) == [PiecePair(piece)] by {
      assert [piece][1..] == [];
    }
    var k, v := Cut(piece, '=');
    assert piece == k + "=" + v;
    assert '&' !in v by {
      assert forall c | c in v :: c in piece;
    }
    ScanLast(k, v);
    ScanMore(k, v, t);
    PairOfPiece(k, v);
  }

  lemma PairOfPiece(k: string, v: string)
    requires '=' !in k
    ensures PiecePair(k + "=" + v) == Pair(k, v)
  {
    var piece := k + "=" + v;
    IndexIs(piece, '=', |k|);
    assert piece[..|k|] == k && piece[|k| + 1..] == v;
  }

  /** No key in the standard's list contains an '&'. */
  lemma {:induction false} PieceKeys(pieces: seq<string>)
    requires forall p | p in pieces :: '&' !in p
    ensures forall p | p in PiecePairs(pieces) :: '&' !in p.key
  {
    if pieces != [] {
      PieceKeys(pieces[1..]);
      assert pieces[0] in pieces;
    }
  }

  /** Some piece of a list is not empty, so the standard reads at least one pair. */
  lemma {:induction false} NonemptyPiece(pieces: seq<string>, i: nat)
    requires i < |pieces| && pieces[i] != []
    ensures PiecePairs(pieces) != []
  {
    if i > 0 {
      NonemptyPiece(pieces[1..], i - 1);
    }
  }

  /** When the first piece has no '=', the readings agree only on a text of separators. */
  lemma UnseparatedHead(s: string)
    requires '=' !in Split(s)[0]
    ensures ParsePairs(s) == SplitPairs(s) <==> AllSeparated(Split(s))
  {
    var pieces := Split(s);
    SplitOf(s);
    NoPairs(s);
    if AllSeparated(pieces) {
      EmptyPieces(pieces);
    } else {
      var i :| 0 <= i < |pieces| && pieces[i] != [];
      NonemptyPiece(pieces, i);
      PieceKeys(pieces);
      if '=' in s {
        KeyWithSeparator(s);
      }
    }
  }

  lemma KeyWithSeparator(s: string)
    requires '=' in s && '=' !in Split(s)[0]
    ensures ParsePairs(s) != [] && '&' in ParsePairs(s)[0].key
  {
    var a, e := Index(s, '&'), Index(s, '=');
    assert forall j | 0 <= j < a :: Split(s)[0][j] == s[j];
    assert s[a] == '&' && s[e] == '=';
    assert s[..e][a] == '&';
  }

  /**
   The greedy scan and split-then-split yield the same list exactly when every piece has an '='
   of its own, up to empty pieces at the end.
   */
  lemma {:induction false} ScanIsSplitWhenSeparated(s: string)
    ensures ParsePairs(s) == SplitPairs(s) <==> AllSeparated(Split(s))
    decreases |s|
  {
    if '=' !in Split(s)[0] {
      UnseparatedHead(s);
    } else if '&' in s {
      var piece, t := Cut(s, '&');
      assert s == piece + "&" + t;
      SplitMore(piece, t);
      SeparatedHead(piece, t);
      ScanIsSplitWhenSeparated(t);
      assert Split(s)[1..] == Split(t);
      assert ParsePairs(s)[1..] == ParsePairs(t);
      assert SplitPairs(s)[1..] == SplitPairs(t);
    } else {
      SplitMore(s, []);
      SeparatedHead(s, []);
      assert Split(s)[1..] == [];
    }
  }
}
