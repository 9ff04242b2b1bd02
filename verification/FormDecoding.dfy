/**
 The decoding half of section 5.1 of the URL Standard, on bytes: '+' is a blank and '%' starts
 a two-digit escape. The server does none of it.
 */
module FormDecoding {
  import opened CText
  import opened Hex
  import opened QueryPairs

  predicate StartsEscape(s: string) {
    |s| >= 3 && s[0] == '%' && IsHexDigit(s[1]) && IsHexDigit(s[2])
  }

  function Decode(s: string): (r: string)
    ensures |r| <= |s|
  {
    if s == [] then []
    else if s[0] == '+' then [' '] + Decode(s[1..])
    else if StartsEscape(s) then [(16 * HexValue(s[1]) + HexValue(s[2])) as char] + Decode(s[3..])
    else [s[0]] + Decode(s[1..])
  }

  /** Nothing in the text is an encoding of something else. */
  predicate IsPlain(s: string) {
    s == [] || (s[0] != '+' && !StartsEscape(s) && IsPlain(s[1..]))
  }

  lemma {:induction false} PlainIsUndecoded(s: string)
    ensures Decode(s) == s <==> IsPlain(s)
  {
    if s != [] && s[0] != '+' && !StartsEscape(s) {
      PlainIsUndecoded(s[1..]);
      assert s == [s[0]] + s[1..];
      assert Decode(s)[1..] == Decode(s[1..]);
    }
  }

  function DecodePair(p: Pair): Pair {
    Pair(Decode(p.key), Decode(p.value))
  }

  function DecodePairs(ps: seq<Pair>): seq<Pair> {
    seq(|ps|, i requires 0 <= i < |ps| => DecodePair(ps[i]))
  }

  /** The list that section 5.1 of the URL Standard reads from a text. */
  function StandardPairs(s: string): seq<Pair> {
    DecodePairs(SplitPairs(s))
  }

  // ---- encodings do not reach over a separator ----

  predicate IsSeparator(c: char) {
    c == '=' || c == '&'
  }

  lemma EscapeStaysInPiece(a: string, c: char, b: string)
    requires a != [] && IsSeparator(c)
    ensures StartsEscape(a + [c] + b) == StartsEscape(a)
  {
    var s := a + [c] + b;
    assert s[0] == a[0] && s[|a|] == c;
    assert forall i | 0 <= i < |a| :: s[i] == a[i];
  }

  /** A text is plain when the parts before and behind a separator are. */
  lemma {:induction false} PlainAround(a: string, c: char, b: string)
    requires IsSeparator(c)
    ensures IsPlain(a + [c] + b) <==> IsPlain(a) && IsPlain(b)
    decreases |a|
  {
    var s := a + [c] + b;
    if a == [] {
      assert s[1..] == b;
    } else {
      PlainAround(a[1..], c, b);
      EscapeStaysInPiece(a, c, b);
      assert s[0] == a[0] && s[1..] == a[1..] + [c] + b;
    }
  }

  lemma PlainPair(k: string, v: string)
    ensures Pair(k, v) == DecodePair(Pair(k, v)) <==> IsPlain(k + "=" + v)
  {
    PlainAround(k, '=', v);
    PlainIsUndecoded(k);
    PlainIsUndecoded(v);
  }

  lemma {:induction false} OnlySeparatorsArePlain(s: string)
    requires forall i | 0 <= i < |s| :: s[i] == '&'
    ensures IsPlain(s)
  {
    if s != [] {
      OnlySeparatorsArePlain(s[1..]);
    }
  }

  /** A text whose pieces are all empty holds nothing but separators. */
  lemma {:induction false} EmptyPiecesOnly(s: string)
    requires forall i | 0 <= i < |Split(s)| :: Split(s)[i] == []
    ensures forall i | 0 <= i < |s| :: s[i] == '&'
    decreases |s|
  {
    var a := Index(s, '&');
    assert Split(s)[0] == s[..a];
    if a < |s| {
      var t := s[a + 1..];
      assert forall i | 0 <= i < |Split(t)| :: Split(t)[i] == Split(s)[i + 1];
      EmptyPiecesOnly(t);
      assert s == ['&'] + t;
    }
  }

  // ---- a first piece without '=' ----

  lemma {:induction false} FirstKeyNoLonger(s: string)
    requires '=' in s && SplitPairs(s) != []
    ensures |SplitPairs(s)[0].key| <= KeyLength(s)
    ensures '=' !in Split(s)[0] ==> |SplitPairs(s)[0].key| < KeyLength(s)
    decreases |s|
  {
    var a, e := Index(s, '&'), Index(s, '=');
    var piece := Split(s)[0];
    if '=' in piece {
      IndexIs(piece, '=', e);
    } else {
      assert a < e by {
        assert forall i | 0 <= i < a :: piece[i] == s[i];
        assert s[e] == '=';
      }
      if piece == [] {
        var t := s[1..];
        assert Split(s) == [piece] + Split(t);
        assert Split(s)[1..] == Split(t);
        assert t[e - 1] == '=' && '=' in t;
        IndexIs(t, '=', e - 1);
        FirstKeyNoLonger(t);
      }
    }
  }

  /** Such a text has no pair for the standard either, or one with a shorter key. */
  lemma UnseparatedNeverAgrees(s: string)
    requires '=' !in Split(s)[0]
    ensures ParsePairs(s) == StandardPairs(s) <==> forall i | 0 <= i < |Split(s)| :: Split(s)[i] == []
  {
    var pieces := Split(s);
    NoPairs(s);
    if forall i | 0 <= i < |pieces| :: pieces[i] == [] {
      EmptyPiecesOnly(s);
      EmptyPieces(pieces);
    } else {
      var i :| 0 <= i < |pieces| && pieces[i] != [];
      NonemptyPiece(pieces, i);
      if '=' in s {
        FirstKeyNoLonger(s);
        assert |StandardPairs(s)[0].key| < |ParsePairs(s)[0].key|;
      }
    }
  }

  // ---- the comparison ----

  /**
   The server reads what the standard reads exactly when every piece has an '=' of its own, up to
   empty pieces at the end, and nothing in the text is encoded.
   */
  lemma {:induction false} ScanIsStandard(s: string)
    ensures ParsePairs(s) == StandardPairs(s) <==> AllSeparated(Split(s)) && IsPlain(s)
    decreases |s|
  {
    if '=' !in Split(s)[0] {
      UnseparatedIsStandard(s);
    } else if '&' in s {
      var piece, t := Cut(s, '&');
      assert s == piece + "&" + t;
      SplitMore(piece, t);
      ScanIsStandard(t);
      SeparatedIsStandard(piece, t);
    } else {
      SplitMore(s, []);
      LastIsStandard(s);
    }
  }

  lemma UnseparatedIsStandard(s: string)
    requires '=' !in Split(s)[0]
    ensures ParsePairs(s) == StandardPairs(s) <==> AllSeparated(Split(s)) && IsPlain(s)
  {
    UnseparatedNeverAgrees(s);
    if AllSeparated(Split(s)) {
      EmptyPiecesOnly(s);
      OnlySeparatorsArePlain(s);
    }
  }

  lemma DecodeMore(p: Pair, ps: seq<Pair>)
    ensures DecodePairs([p] + ps) == [DecodePair(p)] + DecodePairs(ps)
  {
  }

  lemma PieceIsPlain(piece: string)
    requires '=' in piece
    ensures PiecePair(piece) == DecodePair(PiecePair(piece)) <==> IsPlain(piece)
  {
    var k, v := Cut(piece, '=');
    assert piece == k + "=" + v;
    PairOfPiece(k, v);
    PlainPair(k, v);
  }

  lemma DecodeOne(p: Pair)
    ensures [p] == DecodePairs([p]) <==> p == DecodePair(p)
  {
    assert DecodePairs([p])[0] == DecodePair(p);
  }

  lemma OnePieceIsSeparated(piece: string)
    requires '&' !in piece && '=' in piece
    ensures AllSeparated(Split(piece))
  {
    SplitMore(piece, []);
    assert Split(piece)[1..] == [];
  }

  lemma LastIsStandard(s: string)
    requires '&' !in s && '=' in s
    ensures ParsePairs(s) == StandardPairs(s) <==> AllSeparated(Split(s)) && IsPlain(s)
  {
    SeparatedHead(s, []);
    OnePieceIsSeparated(s);
    PieceIsPlain(s);
    DecodeOne(PiecePair(s));
  }

  /** A separated piece in front of a text. */
  lemma SeparatedIsStandard(piece: string, t: string)
    requires '&' !in piece && '=' in piece
    requires ParsePairs(t) == StandardPairs(t) <==> AllSeparated(Split(t)) && IsPlain(t)
    ensures var s := piece + "&" + t;
            ParsePairs(s) == StandardPairs(s) <==> AllSeparated(Split(s)) && IsPlain(s)
  {
    var s := piece + "&" + t;
    SeparatedHead(piece, t);
    SplitMore(piece, t);
    PieceIsPlain(piece);
    PlainAround(piece, '&', t);
    DecodeMore(PiecePair(piece), SplitPairs(t));
    HeadsAndTails(PiecePair(piece), ParsePairs(t), DecodePair(PiecePair(piece)), StandardPairs(t));
    assert Split(s)[1..] == Split(t);
  }

  lemma HeadsAndTails(p: Pair, ps: seq<Pair>, q: Pair, qs: seq<Pair>)
    ensures [p] + ps == [q] + qs <==> p == q && ps == qs
  {
    assert ([p] + ps)[0] == p && ([p] + ps)[1..] == ps;
    assert ([q] + qs)[0] == q && ([q] + qs)[1..] == qs;
  }
}
