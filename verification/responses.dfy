/**
 * What the two `scrape_page` functions return and what the `/scrape`
 * endpoints answer. `scrape_page` returns one string, where the prefix
 * "Error:" marks a failure; here the string is paired with the state the
 * browser session is left in. An `HTTPException` becomes a `Failure`
 * carrying its status code and detail.
 */
module Responses {
  import opened TextNorm
  import opened Browser

  datatype Scraped = Scraped(text: string, session: Session)

  datatype Response = Content(url: string, content: string) | Failure(status: int, detail: string)

  datatype Served = Served(response: Response, session: Session)

  const NoTextError: string := "Error: No text found on page"

  /** Python's `s.startswith(prefix)`. */
  predicate StartsWith(s: string, prefix: string)
  {
    |prefix| <= |s| && s[..|prefix|] == prefix
  }

  /** `f"Error: {str(e)}"`: always carries the error prefix and is never blank. */
  function ErrorText(message: string): (r: string)
    ensures StartsWith(r, "Error:") && !Blank(r)
  {
    var r := "Error: " + message;
    assert !IsSpace(r[0]);
    r
  }

  lemma NoTextErrorShape()
    ensures StartsWith(NoTextError, "Error:") && !Blank(NoTextError)
  {
    assert !IsSpace(NoTextError[0]);
  }
}
