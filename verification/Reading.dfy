/**
 What the server reads from a request, told by the text of the request: which texts are scanned, and
 which ids and parameters they give.
 */
module Reading {
  import opened CText
  import opened Decimal
  import opened Json
  import opened Merge
  import opened QueryPairs
  import opened Requests
  import opened RequestText
  import opened Uri

  function QueryText(req: HttpRequest): string {
    CStr(QueryOf(req.uri))
  }

  /** A body counts when its length is announced, below 4096, and it is declared to be a form. */
  function FormText(req: HttpRequest): string {
    if 0 < req.contentLength < 4096 && Lower(req.contentType) == "application/x-www-form-urlencoded" then
      CStr(req.received)
    else ""
  }

  /** With a query of at most 512 bytes both texts are scanned and merged, with a longer one none. */
  lemma ReadsBothTexts(req: HttpRequest)
    ensures FieldsOf(req) == if |QueryOf(req.uri)| <= 512
                             then MergeFields(ParsePairs(QueryText(req)), ParsePairs(FormText(req)))
                             else Fields(0, 0, [])
  {
    FormIsRead(req);
  }

  lemma FormIsRead(req: HttpRequest)
    ensures FormPairsOf(req) == ParsePairs(FormText(req))
  {
    FormTypeMeans(req.contentType);
    assert CStr([]) == [];
    NoPairs([]);
  }

  lemma FormTypeMeans(contentType: string)
    ensures SameText(contentType, FORM_TYPE, false) <==> Lower(contentType) == "application/x-www-form-urlencoded"
  {
    assert Lower(FORM_TYPE) == "application/x-www-form-urlencoded";
  }

  /** The last value under an id name: in the form, spelled exactly, or else in the query. */
  function IdText(req: HttpRequest, name: string): Option<string> {
    if |QueryOf(req.uri)| > 512 then None
    else OrElse(LastValue(ParsePairs(FormText(req)), name, true), LastValue(ParsePairs(QueryText(req)), name, false))
  }

  /** The number that the text of a request gives for an id, 0 when there is none. */
  function IdNumber(req: HttpRequest, name: string): int {
    match IdText(req, name)
    case None => 0
    case Some(s) => Strtol(s).value
  }

  lemma ReadsIds(req: HttpRequest)
    ensures FieldsOf(req).clientId == IdNumber(req, "ClientID")
    ensures FieldsOf(req).clientTransactionId == IdNumber(req, "ClientTransactionID")
  {
    ReadsBothTexts(req);
    FormOverridesIds(ParsePairs(QueryText(req)), ParsePairs(FormText(req)));
  }

  /** The first value under a parameter's name: in the query, or else in the form. */
  function FirstText(req: HttpRequest, name: string, caseSensitive: bool): Option<string> {
    OrElse(FirstValue(ParsePairs(QueryText(req)), name, caseSensitive),
           FirstValue(ParsePairs(FormText(req)), name, caseSensitive))
  }

  lemma ReadsParameter(req: HttpRequest, name: string, caseSensitive: bool)
    requires |QueryOf(req.uri)| <= 512 && IsParameterName(name)
    ensures StringItem(FieldsOf(req).body, name, caseSensitive) == FirstText(req, name, caseSensitive)
  {
    ReadsBothTexts(req);
    QueryShadowsParameters(ParsePairs(QueryText(req)), ParsePairs(FormText(req)), name, caseSensitive);
  }
}
