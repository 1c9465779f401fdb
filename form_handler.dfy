/** The client's form handling: validate the URL typed into the form, post
    it to the server, and either alert or show the analysis. The DOM, the
    `fetch` call and `alert` are not modelled as such: the server's reply
    is an input (`Reply`) and what the user sees is the result (`Effect`). */
module FormHandler {
  import opened Text
  import opened Json
  import opened UrlValidator

  const InvalidUrlAlert := "Invalid URL! Please enter a valid URL."
  const AnalyzeErrorAlert := "An error occurred while analyzing the URL. Please try again."
  /** What is shown for a field the server did not give. */
  const NotAvailable := JString("N/A")

  /** What `fetch` gave: a rejected promise, or a response with its `ok`
      flag and its body parsed as JSON (`None` when the body is not JSON, so
      that `response.json()` rejects). */
  datatype Reply = NetworkError | Response(ok: bool, json: Option<Value>)

  /** What the user sees: an alert, or the three result fields. */
  datatype Effect =
    | Alert(message: string)
    | ShowResults(sentiment: Value, contentType: Value, textPreview: Value)

  /** The outcome of one submission: the URL posted to the server, if any,
      and what the user sees. */
  datatype Submission = Submission(request: Option<string>, effect: Effect)

  /** `value || 'N/A'` on a property that may be `undefined`: whatever is
      shown is truthy, and a truthy value is shown as it is. */
  function OrNotAvailable(v: Option<Value>): (r: Value)
    ensures Truthy(r)
    ensures IsTruthy(v) ==> r == v.value
    ensures r == NotAvailable || v == Some(r)
  {
    if IsTruthy(v) then v.value else NotAvailable
  }

  /** Lines 38-64. Every failure — the request rejecting, a body that is not
      JSON, a response that is not ok, or `null` data, whose property reads
      throw — ends in the same alert; otherwise the three fields are shown,
      each replaced by "N/A" when falsy or missing. */
  function SendUrlToServer(reply: Reply): (e: Effect)
    ensures e.ShowResults? <==>
              reply.Response? && reply.ok && reply.json.Some? && reply.json.value != JNull
    ensures e.Alert? ==> e.message == AnalyzeErrorAlert
    ensures e.ShowResults? ==>
              && e.sentiment == OrNotAvailable(Property(reply.json.value, "sentiment"))
              && e.contentType == OrNotAvailable(Property(reply.json.value, "contentType"))
              && e.textPreview == OrNotAvailable(Property(reply.json.value, "textPreview"))
  {
    match reply
    case NetworkError => Alert(AnalyzeErrorAlert)
    case Response(ok, json) =>
      if json.None? || !ok || json.value == JNull then Alert(AnalyzeErrorAlert)
      else
        var data := json.value;
        ShowResults(
          OrNotAvailable(Property(data, "sentiment")),
          OrNotAvailable(Property(data, "contentType")),
          OrNotAvailable(Property(data, "textPreview")))
  }

  /** Lines 8-21. An invalid URL is refused with its own alert and nothing
      is sent; a valid one is posted as it is and the reply handled by
      `SendUrlToServer`. */
  function HandleSubmit(formText: string, reply: Reply): (s: Submission)
    ensures s.request.Some? <==> IsValidUrl(formText)
    ensures s.request.Some? ==> s.request.value == formText && s.effect == SendUrlToServer(reply)
    ensures s.effect == Alert(InvalidUrlAlert) <==> !IsValidUrl(formText)
  {
    if !IsValidUrl(formText) then Submission(None, Alert(InvalidUrlAlert))
    else Submission(Some(formText), SendUrlToServer(reply))
  }

  /** A field the server did not give, or gave as a falsy value, is shown
      as "N/A". */
  lemma MissingFieldsShowNotAvailable(data: Value)
    requires data != JNull
    requires !IsTruthy(Property(data, "sentiment"))
    requires !IsTruthy(Property(data, "contentType"))
    requires !IsTruthy(Property(data, "textPreview"))
    ensures SendUrlToServer(Response(true, Some(data))) == ShowResults(NotAvailable, NotAvailable, NotAvailable)
  {
  }

  // ----- The cases the repository's tests check -----

  const ExampleUrl := "https://example.com"

  /** The analysis the tests have the server return. */
  function ExampleAnalysis(): (data: Value)
    ensures Property(data, "sentiment") == Some(JString("positive"))
    ensures Property(data, "contentType") == Some(JString("text/html"))
    ensures Property(data, "textPreview") == Some(JString("Example text preview."))
  {
    JObject(map[
      "sentiment" := JString("positive"),
      "contentType" := JString("text/html"),
      "textPreview" := JString("Example text preview.")])
  }

  lemma ShowsExampleAnalysis()
    ensures SendUrlToServer(Response(true, Some(ExampleAnalysis())))
            == ShowResults(JString("positive"), JString("text/html"), JString("Example text preview."))
  {
    var data := ExampleAnalysis();
    assert data != JNull;
  }

  /** A valid URL is posted and the server's three fields are shown. */
  lemma ShowsServerFields()
    ensures HandleSubmit(ExampleUrl, Response(true, Some(ExampleAnalysis())))
            == Submission(Some(ExampleUrl),
                 ShowResults(JString("positive"), JString("text/html"), JString("Example text preview.")))
  {
    AcceptsExampleCom();
    ShowsExampleAnalysis();
  }

  /** A server error on a valid URL ends in the generic alert. */
  lemma ServerErrorAlerts(errorBody: Value)
    ensures HandleSubmit(ExampleUrl, Response(false, Some(errorBody)))
            == Submission(Some(ExampleUrl), Alert(AnalyzeErrorAlert))
  {
    AcceptsExampleCom();
  }

  /** An invalid URL is refused before anything is sent, whatever the
      server would have said. */
  lemma InvalidUrlAlerts(reply: Reply)
    ensures HandleSubmit("invalid-url", reply) == Submission(None, Alert(InvalidUrlAlert))
  {
    RejectsInvalidUrl();
  }
}
