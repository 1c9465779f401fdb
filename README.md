# News-article NLP evaluator: URL validation and the analysis round trip

The application is a small web front end and an Express server. The user
types a URL into a form. The client checks it against one regular
expression (`isValidURL`) and posts it to the server's `/analyze-url`
route. The server scrapes the page's text, keeps a 200-character preview,
forwards the preview to an external NLP service, and relays that service's
answer. The client then shows the sentiment, content type and text preview,
with "N/A" for each value that is missing or falsy, or else alerts the user.

This project models that core in Dafny, as pure functions over values:

- `UrlPattern` (`url_pattern.dfy`) writes the language of the client's URL
  pattern as a declarative grammar, one predicate per piece of the regular
  expression.
- `UrlValidator` (`url_validator.dfy`) is a recognizer for that language.
  It cuts the input at the delimiters `:`, `/`, `?` and `#`.
  `IsValidUrlCorrect` proves that it accepts exactly the strings the
  anchored, case-insensitive pattern matches. The repository's test vectors
  are proved about it.
- `Text` (`text.dfy`) holds the string machinery: cutting at delimiters,
  and splitting and joining with the lemma that makes a split the inverse of
  a join.
- `Json` (`json.dfy`) holds JSON values and JavaScript truthiness.
- `Scrape` (`scrape.dfy`) is the decision part of `scrapeTextFromURL`:
  - `trim` and `replace(/\s+/g, ' ')` over the ECMAScript whitespace set;
  - the choice between the article containers' text and the body's text;
  - the `null` answer;
  - the 200-character preview.
- `AnalyzeRoute` (`analyze_route.dfy`) is the `/analyze-url` handler. It is
  a function from the request's `url` field, the page fetch and the NLP
  call to the exchange the handler performs: whether it scraped, what it
  forwarded, and the status and body it sent.
- `FormHandler` (`form_handler.dfy`) is `handleSubmit` and
  `sendURLToServer`. It is a function from the form text and the server's
  reply to what is sent and what the user sees.
- `ClientServer` (`client_server.dfy`) composes the two sides. For an
  accepted URL, the user sees the analysis exactly when the server answers
  200.

Two behaviours of the code are easy to misread, and the model follows the
code in both:

- **A scrape that throws gives status 500.** `scrapeTextFromURL` rethrows a
  failed fetch as a new error (`index.js:48-51`). The route's `catch`
  (`index.js:89-91`) turns that error into status 500 with "Failed to
  analyze the URL". A page that cannot be fetched therefore does not get
  the 400 "No text content found at the provided URL". Only the `null`
  answer, meaning no text anywhere on the page, gives that 400
  (`ScrapeFailureIsServerError`, `NoTextContentIff`).
- **"N/A" replaces every falsy field, not only missing ones.** The client
  shows "N/A" for a field that is missing or falsy: `null`, `false`, `0` or
  the empty string (`formHandler.js:55-57`, `OrNotAvailable`), not only
  for a missing one.

## Model

| member | source | states |
|---|---|---|
| UrlPattern.ToLower | starter_project/src/client/js/formHandler.js:32 | under the "i" flag, every ASCII letter folds to a lower-case ASCII letter, and lower-case letters and every non-letter are left as they are |
| UrlPattern.ToLowerCaseMates | starter_project/src/client/js/formHandler.js:32 | two characters match under the "i" flag iff they are equal or are the upper- and lower-case forms of one ASCII letter |
| UrlPattern.MatchesHasScheme | starter_project/src/client/js/formHandler.js:26 | every string the pattern matches starts with `http://` or `https://`, in any mix of case |
| UrlPattern.DomainShape | starter_project/src/client/js/formHandler.js:27 | a host of the domain-name form ends in a letter and contains a dot |
| UrlPattern.LocalhostShape | starter_project/src/client/js/formHandler.js:28 | the `localhost` alternative is nine letters, in any case |
| UrlPattern.Ipv4Shape | starter_project/src/client/js/formHandler.js:29 | a host of the IPv4 form starts and ends with a digit |
| UrlPattern.HostFormsDisjoint | starter_project/src/client/js/formHandler.js:27-29 | no host matches two of the three host alternatives |
| UrlValidator.SchemeLength | starter_project/src/client/js/formHandler.js:26 | when it finds a scheme, that prefix of the input has the `https?://` form |
| UrlValidator.Decompose | starter_project/src/client/js/formHandler.js:26-32 | the six parts it cuts concatenate back to exactly the input, and the first is a scheme |
| UrlValidator.CutAfterHost | starter_project/src/client/js/formHandler.js:30-32 | cutting port, path, query and fragment keeps scheme and host and loses no character |
| UrlValidator.LabelOkSound | starter_project/src/client/js/formHandler.js:27 | a string alphanumeric at both ends with only letters, digits and hyphens between matches the label piece of the pattern |
| UrlValidator.LabelOkComplete | starter_project/src/client/js/formHandler.js:27 | every string matching the label piece is alphanumeric at both ends with only letters, digits and hyphens between |
| UrlValidator.LabelOkIff | starter_project/src/client/js/formHandler.js:27 | a label matches `[a-zA-Z\d]([a-zA-Z\d-]*[a-zA-Z\d])*` iff it is alphanumeric at both ends with only letters, digits and hyphens between |
| UrlValidator.DomainOkSound | starter_project/src/client/js/formHandler.js:27 | a host whose dot-separated pieces are labels followed by a top-level label of two or more letters matches the domain alternative |
| UrlValidator.DomainOkComplete | starter_project/src/client/js/formHandler.js:27 | every host matching the domain alternative splits at its dots into labels followed by such a top-level label |
| UrlValidator.DomainOkIff | starter_project/src/client/js/formHandler.js:27 | the split-based domain check and the domain alternative agree on every string, both ways |
| UrlValidator.Ipv4OkSound | starter_project/src/client/js/formHandler.js:29 | four dot-separated groups of one to three digits match the IPv4 alternative |
| UrlValidator.Ipv4OkComplete | starter_project/src/client/js/formHandler.js:29 | every host matching the IPv4 alternative splits at its dots into exactly four groups of one to three digits |
| UrlValidator.Ipv4OkIff | starter_project/src/client/js/formHandler.js:29 | four dot-separated groups of one to three digits match the IPv4 alternative, and nothing else does |
| UrlValidator.HostOkIff | starter_project/src/client/js/formHandler.js:27-29 | the host check accepts exactly the strings of the host alternation |
| UrlValidator.PathOkSound | starter_project/src/client/js/formHandler.js:30 | an empty path, or a slash followed by slash-separated runs of path characters, matches the path piece |
| UrlValidator.PathOkComplete | starter_project/src/client/js/formHandler.js:30 | every string matching the path piece is empty or a slash followed by slash-separated runs of path characters |
| UrlValidator.PathOkIff | starter_project/src/client/js/formHandler.js:30 | a path is accepted iff it is a sequence of `/`-led segments over the path characters, empty segments included |
| UrlValidator.DecomposeUnique | starter_project/src/client/js/formHandler.js:26-32 | any split of a URL into six well-formed parts is the one `Decompose` finds, so the delimiters leave the pattern no choice |
| UrlValidator.IsValidUrlCorrect | starter_project/src/client/js/formHandler.js:24-35 | `isValidURL` holds for a string iff the whole string matches the pattern (soundness and completeness) |
| UrlValidator.ValidUrlHasScheme | starter_project/src/client/js/formHandler.js:26 | every accepted URL starts with `http://` or `https://`, in any case |
| UrlValidator.ValidUrlHostHasOneForm | starter_project/src/client/js/formHandler.js:27-29 | the host of an accepted URL is exactly one of domain name, `localhost` and IPv4 literal |
| UrlValidator.AcceptsParts | starter_project/src/client/js/formHandler.js:24-35 | any concatenation of well-formed scheme, host, port, path, query and fragment is accepted |
| UrlValidator.RejectsWithoutScheme | starter_project/src/client/js/formHandler.js:26 | a string that does not start with a scheme is rejected |
| UrlValidator.AlnumWordIsLabel | starter_project/src/client/js/formHandler.js:27 | every non-empty word of letters and digits matches the label piece |
| UrlValidator.TwoLabelDomain | starter_project/src/client/js/formHandler.js:27 | a word of letters and digits, a dot and two or more letters match the domain alternative |
| UrlValidator.AcceptsExampleCom | starter_project/__tests__/formHandler.test.js:113-116 | `https://example.com` is accepted |
| UrlValidator.RejectsInvalidUrl | starter_project/__tests__/formHandler.test.js:118-121 | `invalid-url` is rejected |
| UrlValidator.AcceptsLocalhostWithPort | starter_project/__tests__/formHandler.test.js:123-126 | `http://localhost:3000` is accepted |
| UrlValidator.RejectsEmpty | starter_project/__tests__/formHandler.test.js:128-131 | the empty string is rejected |
| UrlValidator.AcceptsUpperCase | starter_project/src/client/js/formHandler.js:32 | the "i" flag makes `HTTPS://EXAMPLE.COM` acceptable |
| UrlValidator.AcceptsOctetsAbove255 | starter_project/src/client/js/formHandler.js:29 | `http://999.999.999.999` is accepted: the IPv4 alternative bounds digits, not values |
| Scrape.Trim | starter_project/src/server/index.js:31 | `trim` gives the infix left after removing only whitespace from both ends; it is empty iff the input is all whitespace, and otherwise starts and ends with a visible character |
| Scrape.Collapse | starter_project/src/server/index.js:35 | collapsing never lengthens the text and gives the empty string only for the empty string |
| Scrape.CollapseLast | starter_project/src/server/index.js:35 | the collapsed text ends in whitespace iff the input does |
| Scrape.CollapseSpacing | starter_project/src/server/index.js:35 | after collapsing, every whitespace character is a space and no two are adjacent |
| Scrape.CollapseShape | starter_project/src/server/index.js:35 | after collapsing, every whitespace character is a space, no two are adjacent, and each end is whitespace iff it was before |
| Scrape.CollapseKeepsVisible | starter_project/src/server/index.js:35 | collapsing keeps every non-whitespace character, in order |
| Scrape.CollapseCons | starter_project/src/server/index.js:35 | a visible character is kept as it is |
| Scrape.CollapseRun | starter_project/src/server/index.js:35 | a whole run of whitespace becomes a single space |
| Scrape.CollapseConcat | starter_project/src/server/index.js:35 | collapsing distributes over concatenation at any boundary that does not split a whitespace run |
| Scrape.CollapseFixpoint | starter_project/src/server/index.js:35 | text with single spaces only is left unchanged |
| Scrape.CollapseIdempotent | starter_project/src/server/index.js:35 | collapsing twice equals collapsing once |
| Scrape.SelectText | starter_project/src/server/index.js:31-36 | the selection is empty iff both the container text and the body are all whitespace; a non-blank container text is used trimmed; otherwise it is the trimmed body with each whitespace run replaced by one space, which keeps the body's visible characters in order |
| Scrape.ScrapeTextFromUrl | starter_project/src/server/index.js:24-51 | a failed fetch throws; `null` is returned iff no text exists anywhere; otherwise the result is a prefix of the selection with 1 to 200 characters, and is the whole selection unless it is exactly 200 long |
| Scrape.PrefersTargetedText | starter_project/src/server/index.js:31-36 | when the containers hold text, the body does not affect the result and the preview is a prefix of the trimmed container text |
| Scrape.TargetedTextNotCollapsed | starter_project/src/server/index.js:31 | container text keeps its inner whitespace runs (`"a  b"` stays as it is) |
| Scrape.FallbackIsClean | starter_project/src/server/index.js:35 | the body fallback is non-empty, starts and ends with a visible character, and has single spaces only |
| Scrape.FallbackPreviewIsClean | starter_project/src/server/index.js:35-47 | the preview of the body fallback starts with a visible character and has single spaces only |
| AnalyzeRoute.AnalyzeUrl | starter_project/src/server/index.js:57-93 | the status is 200, 400 or 500; it is 200 iff the body is the NLP data passed through, which is truthy and unchanged; the page is scraped iff `url` is truthy; anything forwarded has 1 to 200 characters |
| AnalyzeRoute.MissingUrlRefused | starter_project/src/server/index.js:61-64 | a missing or falsy `url` gives 400 "URL is required", with no scrape and nothing forwarded |
| AnalyzeRoute.ScrapeFailureIsServerError | starter_project/src/server/index.js:89-91 | a scrape that throws gives 500 "Failed to analyze the URL", with nothing forwarded |
| AnalyzeRoute.NoTextContentIff | starter_project/src/server/index.js:70-72 | for a truthy `url`, status 400 with "No text content found at the provided URL", after scraping and with nothing forwarded, comes exactly for fetched pages without any text |
| AnalyzeRoute.ForwardsPreview | starter_project/src/server/index.js:78 | whenever the page has text, the handler forwards exactly the scraped preview |
| AnalyzeRoute.NlpFailureIsServerError | starter_project/src/server/index.js:83-91 | after forwarding, the status is 500 iff the NLP call throws or returns falsy data, with "Failed to analyze the URL" for the first and "Invalid response from NLP API" for the second |
| AnalyzeRoute.SuccessIff | starter_project/src/server/index.js:83-88 | status 200 comes exactly for a truthy `url`, a page with text and truthy NLP data |
| FormHandler.OrNotAvailable | starter_project/src/client/js/formHandler.js:55-57 | what is shown is always truthy; a truthy value is shown as it is, and anything else as "N/A" |
| FormHandler.SendUrlToServer | starter_project/src/client/js/formHandler.js:38-64 | results are shown iff the response is ok and its body parses to non-null JSON; every other case alerts the generic error; each shown field is the server's field when that is truthy and "N/A" otherwise |
| FormHandler.HandleSubmit | starter_project/src/client/js/formHandler.js:8-21 | a request is sent iff the URL is valid, and it carries the form text unchanged; the invalid-URL alert appears iff the URL is invalid |
| FormHandler.MissingFieldsShowNotAvailable | starter_project/src/client/js/formHandler.js:54-58 | an ok response without usable fields shows "N/A" three times |
| FormHandler.ShowsServerFields | starter_project/__tests__/formHandler.test.js:52-86 | submitting `https://example.com` with the tests' reply sends the URL and shows "positive", "text/html" and "Example text preview." |
| FormHandler.ServerErrorAlerts | starter_project/__tests__/formHandler.test.js:88-106 | a response that is not ok alerts the generic error, whatever its body |
| FormHandler.InvalidUrlAlerts | starter_project/__tests__/formHandler.test.js:37-49 | `invalid-url` gets the invalid-URL alert and sends nothing |
| ClientServer.ResponseJson | starter_project/src/server/index.js:83-91 | an error answer is an object whose `error` field is the message; a success answer is the NLP data itself |
| ClientServer.Deliver | starter_project/src/client/js/formHandler.js:46-51 | the client parses exactly the JSON the server wrote, and `ok` is true iff the status is 2xx |
| ClientServer.ValidUrlIsTruthy | starter_project/src/server/index.js:61 | a URL the client accepts is never refused as missing by the server |
| ClientServer.SubmissionOutcome | starter_project/src/client/js/formHandler.js:38-64 | for an accepted URL the server always scrapes, and the user sees the NLP fields (each or "N/A") iff the server answers 200, and the generic alert otherwise |
| ClientServer.RefusedUrlNotSent | starter_project/src/client/js/formHandler.js:15-18 | a refused URL never reaches the server |
| ClientServer.NoTextAlerts | starter_project/src/server/index.js:70-72 | a page without text gives 400 on the server and the generic alert on the client |

## Left out

- The Express setup is not modelled: CORS, body parsing, environment loading, the port, the default `GET /` route and the server start (`index.js:1-17`, `index.js:96-104`). None of it decides an analysis.
- Logging with `console.log` and `console.error` is left out. It has no effect on results.
- Fetching the page with axios and parsing it with cheerio are inputs, not computations. `Fetch` is either a failure or the text of the `article, .post, .content` elements and of `body`. How cheerio joins element texts is not modelled.
- The NLP service is an input (`Nlp`). Its address, taken from `NLP_API_URL` or a fixed default (`index.js:77`), is not modelled.
- Promises and `async`/`await` are modelled only by their outcomes: resolved with a value, or rejected.
- The client-side DOM is not modelled: `preventDefault`, reading the input field, writing `innerHTML`, `alert` and the endpoint constant `serverURL`. `Effect` records what is shown or alerted. The HTML text is not modelled, so neither is how a value turns into a string inside the template.
- The JSON encoding between server and client is not modelled. The client is taken to parse exactly the value the server wrote. Numbers are reals, with no NaN, infinities or negative zero.
- Scrape.ScrapeTextFromUrl: the 200-character cut counts Unicode scalar values. `substring` counts UTF-16 code units, so for text outside the Basic Multilingual Plane the source's preview can be shorter or split a surrogate pair.
- AnalyzeRoute.AnalyzeUrl: any truthy `url` is passed on. The value itself does not reach the model, because the page fetch is an input.
