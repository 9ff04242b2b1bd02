/**
 Two scans feed one request: the query, with its id names in any case, then the form body, with
 its id names spelled exactly. Ids and ordinary parameters merge in opposite directions.
 */
module Merge {
  import opened CText
  import opened Decimal
  import opened Json
  import opened QueryPairs
  import opened RequestText

  predicate IsIdKey(key: string, caseSensitive: bool) {
    SameText(key, CLIENT_TRANSACTION_ID, caseSensitive) || SameText(key, CLIENT_ID, caseSensitive)
  }

  /** The value of the last pair with a matching key. */
  function LastValue(ps: seq<Pair>, key: string, caseSensitive: bool): Option<string> {
    if ps == [] then None
    else if SameText(ps[|ps| - 1].key, key, caseSensitive) then Some(ps[|ps| - 1].value)
    else LastValue(ps[..|ps| - 1], key, caseSensitive)
  }

  /** The value of the first pair with a matching key. */
  function FirstValue(ps: seq<Pair>, key: string, caseSensitive: bool): Option<string> {
    if ps == [] then None
    else if SameText(ps[0].key, key, caseSensitive) then Some(ps[0].value)
    else FirstValue(ps[1..], key, caseSensitive)
  }

  function OrElse(a: Option<string>, b: Option<string>): Option<string> {
    if a.Some? then a else b
  }

  function IdOf(v: Option<string>, default: int): int {
    if v.Some? then Atoi(v.value) else default
  }

  /** The body items of the pairs that are not ids, in order. */
  function Ordinary(ps: seq<Pair>, caseSensitive: bool): seq<Item> {
    if ps == [] then []
    else
      (if IsIdKey(ps[0].key, caseSensitive) then [] else [Item(ps[0].key, Text(ps[0].value))])
      + Ordinary(ps[1..], caseSensitive)
  }

  // ---- one scan ----

  lemma IdNamesDiffer(key: string, caseSensitive: bool)
    ensures !(SameText(key, CLIENT_ID, caseSensitive) && SameText(key, CLIENT_TRANSACTION_ID, caseSensitive))
  {
    assert |Lower(CLIENT_ID)| == 8 && |Lower(CLIENT_TRANSACTION_ID)| == 19;
  }

  lemma {:induction false} LastValueCons(p: Pair, ps: seq<Pair>, key: string, caseSensitive: bool)
    ensures LastValue([p] + ps, key, caseSensitive)
         == OrElse(LastValue(ps, key, caseSensitive), if SameText(p.key, key, caseSensitive) then Some(p.value) else None)
  {
    var qs := [p] + ps;
    if ps == [] {
      assert qs[..0] == [];
    } else {
      assert qs[|qs| - 1] == ps[|ps| - 1];
      assert qs[..|qs| - 1] == [p] + ps[..|ps| - 1];
      LastValueCons(p, ps[..|ps| - 1], key, caseSensitive);
    }
  }

  /** What a scan leaves in the request, in terms of the pairs alone. */
  ghost predicate ScanMeans(f: Fields, ps: seq<Pair>, caseSensitive: bool, r: Fields) {
    && r.clientId == IdOf(LastValue(ps, CLIENT_ID, caseSensitive), f.clientId)
    && r.clientTransactionId == IdOf(LastValue(ps, CLIENT_TRANSACTION_ID, caseSensitive), f.clientTransactionId)
    && r.body == f.body + Ordinary(ps, caseSensitive)
  }

  lemma OrdinaryMore(body: seq<Item>, p: Pair, ps: seq<Pair>, caseSensitive: bool)
    ensures body + Ordinary([p] + ps, caseSensitive)
         == (if IsIdKey(p.key, caseSensitive) then body else body + [Item(p.key, Text(p.value))])
            + Ordinary(ps, caseSensitive)
  {
    assert ([p] + ps)[1..] == ps;
  }

  lemma ScanMeansMore(f: Fields, p: Pair, ps: seq<Pair>, caseSensitive: bool, r: Fields)
    requires ScanMeans(ApplyPair(f, p, caseSensitive), ps, caseSensitive, r)
    ensures ScanMeans(f, [p] + ps, caseSensitive, r)
  {
    IdNamesDiffer(p.key, caseSensitive);
    LastValueCons(p, ps, CLIENT_ID, caseSensitive);
    LastValueCons(p, ps, CLIENT_TRANSACTION_ID, caseSensitive);
    OrdinaryMore(f.body, p, ps, caseSensitive);
  }

  lemma {:induction false} ApplyPairsMeaning(f: Fields, ps: seq<Pair>, caseSensitive: bool)
    ensures ScanMeans(f, ps, caseSensitive, ApplyPairs(f, ps, caseSensitive))
    decreases |ps|
  {
    if ps != [] {
      ApplyPairsMeaning(ApplyPair(f, ps[0], caseSensitive), ps[1..], caseSensitive);
      ScanMeansMore(f, ps[0], ps[1..], caseSensitive, ApplyPairs(f, ps, caseSensitive));
      assert ps == [ps[0]] + ps[1..];
    }
  }

  // ---- both scans ----

  const NO_FIELDS := Fields(0, 0, [])

  /** `parse_request` on the pairs of a query and of a form. */
  function MergeFields(query: seq<Pair>, form: seq<Pair>): Fields {
    ApplyPairs(ApplyPairs(NO_FIELDS, query, false), form, true)
  }

  /** The last id wins, and the form is read last; a missing id is 0. */
  lemma FormOverridesIds(query: seq<Pair>, form: seq<Pair>)
    ensures MergeFields(query, form).clientId
         == IdOf(OrElse(LastValue(form, CLIENT_ID, true), LastValue(query, CLIENT_ID, false)), 0)
    ensures MergeFields(query, form).clientTransactionId
         == IdOf(OrElse(LastValue(form, CLIENT_TRANSACTION_ID, true), LastValue(query, CLIENT_TRANSACTION_ID, false)), 0)
    ensures MergeFields(query, form).body == Ordinary(query, false) + Ordinary(form, true)
  {
    var f := ApplyPairs(NO_FIELDS, query, false);
    ApplyPairsMeaning(NO_FIELDS, query, false);
    ApplyPairsMeaning(f, form, true);
  }

  /** A parameter name that is not an id in any spelling. */
  predicate IsParameterName(name: string) {
    !IsIdKey(name, false)
  }

  lemma SameTextTrans(a: string, b: string, c: string, caseSensitive: bool)
    requires SameText(a, b, caseSensitive)
    ensures SameText(a, c, false) == SameText(b, c, false)
    ensures SameText(a, c, true) ==> SameText(a, c, false)
  {
  }

  lemma {:induction false} OrdinaryLookup(ps: seq<Pair>, name: string, byCase: bool, caseSensitive: bool, tail: seq<Item>)
    requires IsParameterName(name)
    ensures StringItem(Ordinary(ps, caseSensitive) + tail, name, byCase)
         == OrElse(FirstValue(ps, name, byCase), StringItem(tail, name, byCase))
    decreases |ps|
  {
    if ps == [] {
      assert Ordinary(ps, caseSensitive) + tail == tail;
    } else {
      var rest := Ordinary(ps[1..], caseSensitive) + tail;
      OrdinaryLookup(ps[1..], name, byCase, caseSensitive, tail);
      if IsIdKey(ps[0].key, caseSensitive) {
        IdIsNoParameter(ps[0].key, name, byCase, caseSensitive);
        assert Ordinary(ps, caseSensitive) + tail == rest;
      } else {
        var all := Ordinary(ps, caseSensitive) + tail;
        assert all == [Item(ps[0].key, Text(ps[0].value))] + rest;
        assert all[1..] == rest;
      }
    }
  }

  lemma IdIsNoParameter(key: string, name: string, byCase: bool, caseSensitive: bool)
    requires IsIdKey(key, caseSensitive) && IsParameterName(name)
    ensures !SameText(key, name, byCase)
  {
    if SameText(key, name, byCase) {
      SameTextTrans(key, name, CLIENT_ID, byCase);
      SameTextTrans(key, name, CLIENT_TRANSACTION_ID, byCase);
      assert false;
    }
  }

  /** The first value wins, and the query is read first. */
  lemma QueryShadowsParameters(query: seq<Pair>, form: seq<Pair>, name: string, byCase: bool)
    requires IsParameterName(name)
    ensures StringItem(MergeFields(query, form).body, name, byCase)
         == OrElse(FirstValue(query, name, byCase), FirstValue(form, name, byCase))
  {
    FormOverridesIds(query, form);
    OrdinaryLookup(form, name, byCase, true, []);
    OrdinaryLookup(query, name, byCase, false, Ordinary(form, true));
    assert Ordinary(form, true) + [] == Ordinary(form, true);
  }

  /** A misspelled id in the form is an ordinary parameter; in the query it is the id. */
  lemma MisspelledId(key: string, value: string)
    requires SameText(key, CLIENT_ID, false) && key != CLIENT_ID
    ensures MergeFields([], [Pair(key, value)]) == Fields(0, 0, [Item(key, Text(value))])
    ensures MergeFields([Pair(key, value)], []) == Fields(Atoi(value), 0, [])
  {
    IdNamesDiffer(key, false);
    SameTextTrans(key, key, CLIENT_TRANSACTION_ID, true);
    var p := Pair(key, value);
    assert [p][1..] == [];
    assert ApplyPairs(NO_FIELDS, [p], true) == ApplyPair(NO_FIELDS, p, true);
    assert ApplyPairs(NO_FIELDS, [p], false) == ApplyPair(NO_FIELDS, p, false);
  }
}
