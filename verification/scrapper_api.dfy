/**
 * The minimal service: a `scrape_page` that loads the page, scrolls to the
 * bottom once and returns the normalised text of `body`, and a `/scrape`
 * endpoint around it. It is straight-line code, modelled as functions over
 * the `Page` the browser serves. The session it leaves behind is tracked:
 * this variant quits the browser only on its success path.
 */
module ScrapperApi {
  import opened Opt
  import opened TextNorm
  import opened Browser
  import opened Responses

  /** The message of the first step after launch that raises, in program
      order: `driver.get`, the scroll script (which reads
      `document.body.scrollHeight`), finding and reading `body`. */
  function StepFailure(p: Page): Option<string>
  {
    if p.loadError.Some? then p.loadError
    else if p.scrollHeight.Raised? then Some(p.scrollHeight.message)
    else if p.body.Raised? then Some(p.body.message)
    else None
  }

  /** The run reaches `driver.quit()`: launched, nothing raised, and the raw
      body text has something other than whitespace. */
  predicate ReachesQuit(p: Page)
  {
    p.launchError.None? && StepFailure(p).None? && !Blank(p.body.value)
  }

  /** `scrape_page`: the text it returns and the state of the browser after
      it. The empty check runs on the raw body, before normalisation. */
  function ScrapePage(p: Page): (r: Scraped)
    ensures r.session == Quit <==> ReachesQuit(p)
    ensures r.session == NotLaunched <==> p.launchError.Some?
    ensures r.session == Open <==> p.launchError.None? && !ReachesQuit(p)
  {
    if p.launchError.Some? then Scraped(ErrorText(p.launchError.value), NotLaunched)
    else
      match StepFailure(p)
      case Some(message) => Scraped(ErrorText(message), Open)
      case None =>
        if Blank(p.body.value) then Scraped(NoTextError, Open)
        else Scraped(Cap(Normalise(p.body.value)), Quit)
  }

  /** An empty or whitespace-only body gives the sentinel and leaves the
      browser running. */
  lemma BlankBodyKeepsSessionOpen(p: Page)
    requires p.launchError.None? && StepFailure(p).None? && Blank(p.body.value)
    ensures ScrapePage(p) == Scraped(NoTextError, Open)
  {
  }

  /** A body with a word in it: the output is its words joined by single
      spaces and cut to min(200000, length); it is non-empty, starts on a
      non-space, has no whitespace but ' ' and no doubled space. It can end
      in one space, and then only when the cut fell right after a separator,
      dropping that space being what normalising it again does. */
  lemma NormalisedOutput(p: Page)
    requires ReachesQuit(p)
    ensures var text := ScrapePage(p).text;
      var joined := Join(Words(p.body.value));
      && text == Cap(joined)
      && |text| == (if |joined| <= ContentCap then |joined| else ContentCap)
      && |text| > 0 && NoLeadingSpace(text) && SpacesOnly(text) && NoDoubleSpace(text)
      && (!NoTrailingSpace(text) ==>
            |joined| > ContentCap && text[|text| - 1] == ' ' && Normalise(text) == text[..|text| - 1])
  {
    var body := p.body.value;
    NormaliseShape(body);
    CappedShape(Normalise(body));
  }

  /** `scrape_page` never returns a blank string. */
  lemma ScrapedNeverBlank(p: Page)
    ensures !Blank(ScrapePage(p).text)
  {
    NoTextErrorShape();
    if ReachesQuit(p) {
      NormalisedOutput(p);
      assert !IsSpace(ScrapePage(p).text[0]);
    }
  }

  // ---------------------------------------------------------------------
  // The /scrape endpoint

  const InvalidFormat: string := "Invalid URL format"
  const NoContent: string := "No content extracted"

  /** `scrape_url`: the prefix check, then `scrape_page`, then the blank
      check. Every other string, "Error: ..." included, is content. */
  function ScrapeUrl(url: string, p: Page): (r: Served)
    ensures !StartsWith(url, "http") ==> r == Served(Failure(400, InvalidFormat), NotLaunched)
    ensures StartsWith(url, "http") ==> r.session == ScrapePage(p).session
  {
    if !StartsWith(url, "http") then Served(Failure(400, InvalidFormat), NotLaunched)
    else
      var text := ScrapePage(p).text;
      if Blank(text) then Served(Failure(500, NoContent), ScrapePage(p).session)
      else Served(Content(url, text), ScrapePage(p).session)
  }

  /** After the prefix check the endpoint always answers with the URL and
      the text `scrape_page` returned: its 500 branch is unreachable, and
      failures reach the client as content that starts with "Error:". */
  lemma AlwaysContent(url: string, p: Page)
    requires StartsWith(url, "http")
    ensures ScrapeUrl(url, p).response == Content(url, ScrapePage(p).text)
  {
    ScrapedNeverBlank(p);
  }

  /** A launch, navigation, scroll or body failure is answered as content. */
  lemma FailureServedAsContent(url: string, p: Page)
    requires StartsWith(url, "http")
    requires p.launchError.Some? || StepFailure(p).Some?
    ensures var response := ScrapeUrl(url, p).response;
      response.Content? && StartsWith(response.content, "Error:")
  {
    AlwaysContent(url, p);
  }

  /** The check is a prefix test, not a scheme test: "httpfoo" passes it. */
  lemma PrefixCheckIsLoose(p: Page)
    ensures ScrapeUrl("httpfoo", p).response == Content("httpfoo", ScrapePage(p).text)
  {
    assert StartsWith("httpfoo", "http");
    AlwaysContent("httpfoo", p);
  }

  /** Only the success path stops the browser: after the request the
      session is still open exactly when the URL passed the check, the
      launch worked and the run did not reach `driver.quit()`. */
  lemma SessionLeaks(url: string, p: Page)
    ensures ScrapeUrl(url, p).session == Open <==>
      StartsWith(url, "http") && p.launchError.None? && !ReachesQuit(p)
  {
  }
}
