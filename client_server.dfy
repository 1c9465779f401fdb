/** The client and the server together: the server's answer to a
    submitted URL, delivered as the client's `Reply`, decides what the user
    sees. */
module ClientServer {
  import opened Text
  import opened Json
  import opened Scrape
  import opened UrlPattern
  import opened UrlValidator
  import opened AnalyzeRoute
  import opened FormHandler

  /** The JSON the server writes for a response body. */
  function ResponseJson(body: Body): (v: Value)
    ensures body.ErrorBody? ==> Property(v, "error") == Some(JString(body.message))
    ensures body.PassThrough? ==> v == body.data
  {
    match body
    case ErrorBody(message) => JObject(map["error" := JString(message)])
    case PassThrough(data) => data
  }

  /** The server's response as the client's `fetch` sees it: `ok` for a
      2xx status, and a body that parses as JSON. */
  function Deliver(x: Exchange): (r: Reply)
    ensures r.Response? && r.json == Some(ResponseJson(x.body))
    ensures r.ok <==> 200 <= x.status <= 299
  {
    Response(200 <= x.status < 300, Some(ResponseJson(x.body)))
  }

  /** An accepted URL is a non-empty string, so the server sees a truthy
      `url` field. */
  lemma ValidUrlIsTruthy(formText: string)
    requires IsValidUrl(formText)
    ensures IsTruthy(Some(JString(formText)))
  {
    ValidUrlHasScheme(formText);
  }

  /** For a URL the client accepts, the user sees the analysis exactly when
      the server answers 200, and then sees the NLP service's fields;
      every other outcome on the server ends in the generic alert. */
  lemma SubmissionOutcome(formText: string, fetch: Fetch, nlp: Nlp)
    requires IsValidUrl(formText)
    ensures var x := AnalyzeUrl(Some(JString(formText)), fetch, nlp);
            var s := HandleSubmit(formText, Deliver(x));
            && x.scraped
            && s.request == Some(formText)
            && (s.effect.ShowResults? <==> x.status == 200)
            && (x.status != 200 ==> s.effect == Alert(AnalyzeErrorAlert))
            && (x.status == 200 ==>
                  s.effect == ShowResults(
                    OrNotAvailable(Property(nlp.data, "sentiment")),
                    OrNotAvailable(Property(nlp.data, "contentType")),
                    OrNotAvailable(Property(nlp.data, "textPreview"))))
  {
    ValidUrlIsTruthy(formText);
  }

  /** A URL the client refuses never reaches the server. */
  lemma RefusedUrlNotSent(formText: string, reply: Reply)
    requires !IsValidUrl(formText)
    ensures HandleSubmit(formText, reply).request.None?
    ensures HandleSubmit(formText, reply).effect == Alert(InvalidUrlAlert)
  {
  }

  /** A page with no text shows the user the generic alert, not the
      server's own message. */
  lemma NoTextAlerts(formText: string, targeted: string, body: string, nlp: Nlp)
    requires IsValidUrl(formText)
    requires Blank(targeted) && Blank(body)
    ensures var x := AnalyzeUrl(Some(JString(formText)), Fetched(targeted, body), nlp);
            && x.status == 400
            && HandleSubmit(formText, Deliver(x)).effect == Alert(AnalyzeErrorAlert)
  {
    ValidUrlIsTruthy(formText);
  }
}
