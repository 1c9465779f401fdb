/** The server's `POST /analyze-url` handler: validate the request, scrape
    the page, forward the preview to the NLP service and relay its answer.
    The page fetch and the NLP call are inputs (`Fetch`, `Nlp`); the
    handler's decisions are modelled as a function from them to the
    exchange it performs. */
module AnalyzeRoute {
  import opened Text
  import opened Json
  import opened Scrape

  const UrlRequired := "URL is required"
  const NoTextContent := "No text content found at the provided URL"
  const InvalidNlpResponse := "Invalid response from NLP API"
  const AnalyzeFailed := "Failed to analyze the URL"

  /** What the POST to the NLP service gave: it threw (a network error or
      a non-2xx status), or it returned a parsed body. */
  datatype Nlp = NlpThrew | NlpReplied(data: Value)

  /** The JSON body of the response: `{ error: message }`, or the NLP data
      passed through unchanged. */
  datatype Body = ErrorBody(message: string) | PassThrough(data: Value)

  /** Everything the handler does for one request: whether it scraped the
      page, the text it posted to the NLP service (if it did), and the
      status and body it answered with. */
  datatype Exchange = Exchange(scraped: bool, posted: Option<string>, status: nat, body: Body)

  /** Lines 57-93. `url` is the request body's `url` field, `None` when the
      field is missing. */
  function AnalyzeUrl(url: Option<Value>, fetch: Fetch, nlp: Nlp): (x: Exchange)
    ensures x.status == 200 || x.status == 400 || x.status == 500
    ensures x.status == 200 <==> x.body.PassThrough?
    ensures x.scraped <==> IsTruthy(url)
    ensures x.posted.Some? ==> x.scraped && 1 <= |x.posted.value| <= PreviewLength
    ensures x.body.PassThrough? ==>
              x.posted.Some? && nlp.NlpReplied? && Truthy(nlp.data) && x.body.data == nlp.data
  {
    if !IsTruthy(url) then
      Exchange(false, None, 400, ErrorBody(UrlRequired))
    else
      match ScrapeTextFromUrl(fetch)
      case ScrapeThrew =>
        Exchange(true, None, 500, ErrorBody(AnalyzeFailed))
      case ScrapeReturned(text) =>
        if text.None? || text.value == [] then
          Exchange(true, None, 400, ErrorBody(NoTextContent))
        else
          match nlp
          case NlpThrew =>
            Exchange(true, Some(text.value), 500, ErrorBody(AnalyzeFailed))
          case NlpReplied(data) =>
            if !Truthy(data) then
              Exchange(true, Some(text.value), 500, ErrorBody(InvalidNlpResponse))
            else
              Exchange(true, Some(text.value), 200, PassThrough(data))
  }

  /** Lines 61-64: a missing or falsy `url` is refused before any scraping
      or forwarding. */
  lemma MissingUrlRefused(url: Option<Value>, fetch: Fetch, nlp: Nlp)
    requires !IsTruthy(url)
    ensures AnalyzeUrl(url, fetch, nlp) == Exchange(false, None, 400, ErrorBody(UrlRequired))
  {
  }

  /** Lines 48-51 and 89-91: a scrape that throws ends in the generic
      server error, not in "no text content". */
  lemma ScrapeFailureIsServerError(url: Option<Value>, nlp: Nlp)
    requires IsTruthy(url)
    ensures AnalyzeUrl(url, FetchFailed, nlp) == Exchange(true, None, 500, ErrorBody(AnalyzeFailed))
  {
  }

  /** Lines 39-42 and 70-72: exactly the pages with no text anywhere get
      status 400 with the "no text content" message, and nothing is
      forwarded for them. */
  lemma NoTextContentIff(url: Option<Value>, fetch: Fetch, nlp: Nlp)
    requires IsTruthy(url)
    ensures AnalyzeUrl(url, fetch, nlp) == Exchange(true, None, 400, ErrorBody(NoTextContent))
            <==> fetch.Fetched? && Blank(fetch.targeted) && Blank(fetch.body)
  {
  }

  /** Line 78: what is forwarded is the scraped preview, and it is sent
      whenever the page has text, whatever the NLP service then does. */
  lemma ForwardsPreview(url: Option<Value>, fetch: Fetch, nlp: Nlp)
    requires IsTruthy(url) && fetch.Fetched?
    requires !(Blank(fetch.targeted) && Blank(fetch.body))
    ensures var x := AnalyzeUrl(url, fetch, nlp);
            && x.posted.Some?
            && ScrapeTextFromUrl(fetch) == ScrapeReturned(x.posted)
  {
  }

  /** Lines 83-85 and 89-91: a forwarded request ends in 500 exactly when
      the NLP call throws or returns falsy data, with the message telling
      the two apart. */
  lemma NlpFailureIsServerError(url: Option<Value>, fetch: Fetch, nlp: Nlp)
    requires AnalyzeUrl(url, fetch, nlp).posted.Some?
    ensures var x := AnalyzeUrl(url, fetch, nlp);
            && (x.status == 500 <==> nlp.NlpThrew? || !Truthy(nlp.data))
            && (nlp.NlpThrew? ==> x.body == ErrorBody(AnalyzeFailed))
            && (nlp.NlpReplied? && !Truthy(nlp.data) ==> x.body == ErrorBody(InvalidNlpResponse))
  {
  }

  /** Line 88: success is exactly a forwarded request whose NLP data is
      truthy, and the data reaches the client unchanged. */
  lemma SuccessIff(url: Option<Value>, fetch: Fetch, nlp: Nlp)
    ensures var x := AnalyzeUrl(url, fetch, nlp);
            x.status == 200 <==>
              && IsTruthy(url)
              && fetch.Fetched? && !(Blank(fetch.targeted) && Blank(fetch.body))
              && nlp.NlpReplied? && Truthy(nlp.data)
  {
  }
}
