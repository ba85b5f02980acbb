# Dynamic page scraper and YouTube transcript service, modelled in Dafny

This project models the core of a small web service with two variants.

- `scraper_api.py` is the richer variant. Its `scrape_page` drives a headless Chromium. It:
  - scrolls down the page in 300-pixel steps;
  - clicks every visible, enabled element matched by a fixed catalogue of "expand" selectors;
  - walks the iframes;
  - reads the text of `body` and of every `p`, `div`, `article`, `section` and `main` element;
  - returns `' '.join(text.split())[:200000]`, or a string starting with `"Error:"`.

  Its `/scrape` endpoint maps that string to an HTTP answer. Its `/get-transcript` endpoint extracts a YouTube video id with a regular expression, then fetches the title and the transcript.
- `scrapper_api.py` is the minimal variant. It loads the page, scrolls to the bottom once and normalises the text of `body`.

## How the model is organised

- `TextNorm` (`text_norm.dfy`) holds the normalisation both variants share:
  - `Words` is Python's `str.split()`, using Python's whitespace set;
  - `Join` is `' '.join`;
  - `Cap` is the slice `[:200000]`;
  - `Blank` is `not s.strip()`.

  Its lemmas give the shape of the output, the round trip between `Words` and `Join`, the exact length, and the case where the cut leaves a trailing space.
- `Browser` (`browser.dfy`) describes what the browser reports for one URL as a `Page` value. This covers:
  - what each WebDriver call returns or raises;
  - the elements each selector matches;
  - the iframes;
  - the text of `body` and of the container tags.

  `Browser.Driver` is one browser session. It is a class whose fields the scraper changes: whether the process runs, the current frame, and logs of the scrolls and clicks it issued.

  The driver's query methods (`Get`, `ScrollHeight`, `FindElements`, `FindIframes`, `ReadBody`, `FindTagTexts`) and the `Lookup` helper are its data interface. They hand back what the `Page` records for that call, with no further behaviour, so they carry no rows in the table below. The methods that change the session (`ExecuteScroll`, `ClickElement`, `SwitchToFrame`, `SwitchToDefault`, `Quit`) state the new state, and the loop proofs rely on that.
- `Responses` (`responses.dfy`) holds what `scrape_page` returns (a string, paired with the session state it leaves) and what an endpoint answers.
- `ScraperApi` (`scraper_api.dfy`) models the richer `scrape_page` and `/scrape`. The loops of the source are methods on the driver:
  - the scroll sweep;
  - the selector and element loops of the expansion pass;
  - the iframe pass;
  - the `additional_text +=` loops.

  The scroll sweep, the click loops and the `additional_text` loops are each proved equal to a pure function. The iframe pass is proved to return to the top-level document after every frame. `ScraperApi.ScrapePage` runs them all and is proved equal to the pure `ScraperApi.Outcome`.

  Some functions carry no contract and have no row, but lemmas in the table are about them:
  - `ScraperApi.PassClicks` is the clicks of the expansion pass (scraper_api.py:49-64);
  - `ScraperApi.PageFailure` is the first step that raises, in the order navigation, height script, `body`, container lookups (scraper_api.py:109, 116, 135, 141);
  - `ScraperApi.Answer` is the mapping of the returned string to an answer (scraper_api.py:175-186);
  - `ScrapperApi.StepFailure` is the same order for the minimal variant (scrapper_api.py:37, 43, 47-48).
- `YouTubeTranscript` (`youtube.dfy`) models `extract_video_id`, `get_video_title` and `/get-transcript`. The regular expression is written as a deterministic matcher: it tries the alternatives and the backtracking choices in the order Python's engine does, and tries start positions from left to right.
- `ScrapperApi` (`scrapper_api.dfy`) models the minimal `scrape_page` and `/scrape` as functions.

## Behaviour worth noting

- Every failure of `scrape_page`, including a browser that fails to start, becomes an `"Error: ..."` string. No other way of fetching the page is tried.
- The iframe pass reads each frame's text and discards it. The result does not depend on frames (`ScraperApi.IframesDoNotMatter`).
- Clicks are not de-duplicated. An element matched by two selectors is clicked twice (`ScraperApi.SharedElementClickedTwice`).
- Normalisation before the cut is idempotent. After the cut it is not: the 200,000-character cut can land right after a separator and leave a trailing space (`TextNorm.CutLeavesTrailingSpace`).
- The richer variant stops the browser on every exit after launch. The minimal variant stops it only on its success path: the empty-body return and the exception handler leave it running (`ScrapperApi.SessionLeaks`).
- In the richer `/scrape`, a page whose own text starts with "Error:" is answered as a 500 (`ScraperApi.PageTextLooksLikeError`). In the minimal `/scrape`, every failure is answered as content (`ScrapperApi.FailureServedAsContent`).

## Model

| member | source | states |
|---|---|---|
| `TextNorm.Words` | scraper_api.py:147 | `str.split()` yields only words: non-empty runs without whitespace |
| `TextNorm.Cap` | scraper_api.py:147 | `[:200000]` has length min(200000, n) and is a prefix of its input |
| `TextNorm.WordsSplitAt` | scraper_api.py:147 | splitting around one whitespace character is splitting each side and concatenating |
| `TextNorm.BlankIffNoWords` | scrapper_api.py:50 | `not s.strip()` holds exactly when `s.split()` is empty |
| `TextNorm.JoinLength` | scraper_api.py:214 | `' '.join` of n > 0 parts has length equal to the parts' total length plus n - 1 |
| `TextNorm.JoinPiece` | scraper_api.py:214 | in `' '.join(ws)` each part appears in order at its offset, followed by one space unless it is last |
| `TextNorm.WordsOfJoin` | scraper_api.py:147 | splitting a space-joined sequence of words gives the words back |
| `TextNorm.NormaliseIdempotent` | scraper_api.py:147 | `' '.join(s.split())` is idempotent |
| `TextNorm.JoinNormalised` | scraper_api.py:147 | a join of words has no leading or trailing whitespace, no whitespace but ' ', no doubled space |
| `TextNorm.NormalisedIsFixed` | scraper_api.py:147 | text of that shape is left unchanged by normalisation |
| `TextNorm.NormaliseShape` | scrapper_api.py:54 | normalised text has that shape, and is empty exactly when the input is blank |
| `TextNorm.CappedShape` | scraper_api.py:147 | the cut keeps the shape except possibly one trailing space, which re-normalising removes |
| `TextNorm.CutLeavesTrailingSpace` | scraper_api.py:147 | on a 199,999-letter word, a space and a word, the output ends in a space and is not a fixed point |
| `Responses.ErrorText` | scraper_api.py:164 | `f"Error: {e}"` starts with "Error:" and is never blank |
| `Responses.NoTextErrorShape` | scraper_api.py:153 | the empty-page sentinel starts with "Error:" and is not blank |
| `Browser.Driver.constructor` | scraper_api.py:104 | a launched browser is open, at the top-level document, with empty scroll and click logs |
| `Browser.Driver.ExecuteScroll` | scraper_api.py:119 | a scroll instruction is appended to the scroll log |
| `Browser.Driver.ClickElement` | scraper_api.py:55 | a click goes through exactly when it does not raise, and only then is logged |
| `Browser.Driver.SwitchToFrame` | scraper_api.py:73 | switching succeeds unless the frame refuses, and then the context is that frame |
| `Browser.Driver.SwitchToDefault` | scraper_api.py:77 | the context returns to the top-level document |
| `Browser.Driver.Quit` | scraper_api.py:149 | the session is quit |
| `ScraperApi.SweepFromShape` | scraper_api.py:118-121 | from a cursor, the positions visited are cursor, cursor + 300, ... strictly below the height |
| `ScraperApi.SweepShape` | scraper_api.py:115-121 | the sweep visits 300, 600, ... below `max_height`, ceil(h/300) - 1 of them (none if h <= 300), strictly increasing |
| `ScraperApi.ScrollSweep` | scraper_api.py:115-121 | the loop issues exactly one `scrollTo` per sweep position, in order, and nothing else |
| `ScraperApi.ClicksAmongMember` | scraper_api.py:52-61 | a click on an element is made exactly when the selector found it and it is displayed and enabled and its click does not raise |
| `ScraperApi.PassClicksMember` | scraper_api.py:49-64 | over the whole pass, a (selector, element) click happens exactly when the selector is listed, its lookup succeeded, it found the element, and the element expands |
| `ScraperApi.PassClicksAppend` | scraper_api.py:49-64 | the clicks of two runs of selectors are concatenated, with no de-duplication |
| `ScraperApi.SelectorFailureIsolated` | scraper_api.py:62-64 | a selector whose lookup raises loses exactly its own clicks; every other click is still made |
| `ScraperApi.ClicksAround` | scraper_api.py:52-61 | the clicks of one selector are those before an element, then that element's click if it goes through, then those after it |
| `ScraperApi.ElementFailureIsolated` | scraper_api.py:59-61 | an element that cannot be clicked loses only its own click; earlier and later elements are clicked |
| `ScraperApi.CatalogueDistinct` | scraper_api.py:36-45 | the fifteen catalogue selectors are pairwise distinct |
| `ScraperApi.PassClicksUnmatched` | scraper_api.py:49-64 | selectors that match nothing produce no clicks |
| `ScraperApi.SharedElementAcross` | scraper_api.py:49-56 | an element matched by two selectors and nothing else is clicked once for each, in selector order |
| `ScraperApi.SharedElementClickedTwice` | scraper_api.py:36-56 | with the real catalogue, an element matched by two selectors is clicked, and counted, twice |
| `ScraperApi.ClickMatches` | scraper_api.py:52-61 | the element loop logs exactly the clicks of the displayed, enabled elements whose click does not raise, and counts them |
| `ScraperApi.ClickSelectors` | scraper_api.py:48-64 | the selector loop logs exactly the pass's clicks and counts them |
| `ScraperApi.ExpandHiddenContent` | scraper_api.py:32-86 | the expansion pass makes exactly the pass's clicks, `expanded_count` equals their number, and the top-level document is current afterwards |
| `ScraperApi.SwitchThroughFrames` | scraper_api.py:69-83 | after the iframe pass the top-level document is current, whatever the frames did |
| `ScraperApi.TagTextsRaisedSticks` | scraper_api.py:140-143 | once a tag lookup raises, later tags do not change the outcome |
| `ScraperApi.PrefixedAppend` | scraper_api.py:143 | `additional_text` over two runs of texts is the concatenation of each |
| `ScraperApi.CollectElementText` | scraper_api.py:139-143 | the loops build " " + text for every element, in tag and element order, or stop at the first lookup that raises |
| `ScraperApi.CombinedWords` | scraper_api.py:146-147 | the words of the combined text are the body's words, then each element's words in order |
| `ScraperApi.Outcome` | scraper_api.py:88-164 | the browser never stays open; it is never launched exactly when the launch raised |
| `ScraperApi.ScrapePage` | scraper_api.py:88-164 | running the steps against the driver gives exactly `Outcome`: text and final session |
| `ScraperApi.OutcomeText` | scraper_api.py:146-156 | with no failure, the result is the sentinel when there are no words, otherwise the capped join of the words, with its length and shape |
| `ScraperApi.OutcomeNeverBlank` | scraper_api.py:149-164 | `scrape_page` never returns a blank string |
| `ScraperApi.IframesDoNotMatter` | scraper_api.py:69-83 | the outcome does not depend on the frames |
| `ScraperApi.ScrapeUrl` | scraper_api.py:166-186 | a URL without the "http" prefix gets 400 before any browser starts; no request leaves a browser open |
| `ScraperApi.AnswerMapping` | scraper_api.py:175-186 | for a non-blank result: 500 with the result as detail exactly when it starts with "Error:", else content |
| `ScraperApi.ScrapeUrlMapping` | scraper_api.py:166-186 | after the prefix check, a 500 happens exactly for "Error:" results, with that detail; "No content extracted" is unreachable |
| `ScraperApi.PageTextLooksLikeError` | scraper_api.py:175-177 | a page whose own text starts with "Error:" is answered as a 500 |
| `YouTubeTranscript.FirstFrom` | scraper_api.py:191 | the first position holding a character, or the end |
| `YouTubeTranscript.LastSlashId` | scraper_api.py:191 | the greedy `.+/` backtracks to the last `/` on the line that is followed by an id |
| `YouTubeTranscript.LastParamId` | scraper_api.py:191 | the greedy `.*[?&]v=` backtracks to the last such parameter on the line that is followed by an id |
| `YouTubeTranscript.NestedPath` | scraper_api.py:191 | the `[^/]+/.+/` branch yields an id right after a `/` |
| `YouTubeTranscript.QueryParam` | scraper_api.py:191 | the `.*[?&]v=` branch yields an id right after `v=` |
| `YouTubeTranscript.AfterHost` | scraper_api.py:191 | the alternatives after `youtube.com/` yield an id position past the host |
| `YouTubeTranscript.MatchAt` | scraper_api.py:191 | a match at a start position begins with `youtube.com/` or `youtu.be/` and is followed by an id |
| `YouTubeTranscript.Search` | scraper_api.py:192 | `re.search` reports a position where an id starts |
| `YouTubeTranscript.FirstMatchWins` | scraper_api.py:192 | the leftmost start position that matches decides the result |
| `YouTubeTranscript.NoMatchNoId` | scraper_api.py:192 | when no start position matches, there is no result |
| `YouTubeTranscript.ExtractVideoId` | scraper_api.py:189-193 | a returned id has 11 characters, none of them `"`, `&`, `?`, `/` or whitespace, and is a substring of the URL |
| `YouTubeTranscript.NoAnchorNoId` | scraper_api.py:189-193 | without `youtube.com/` or `youtu.be/` in the URL there is no id |
| `YouTubeTranscript.NoMatchOffY` | scraper_api.py:191 | no match starts on a character other than `y` |
| `YouTubeTranscript.WatchShape` | scraper_api.py:191 | `https://www.youtube.com/watch?v=<id>` yields the id |
| `YouTubeTranscript.ShortShape` | scraper_api.py:191 | `https://youtu.be/<id>` yields the id |
| `YouTubeTranscript.EmbedShape` | scraper_api.py:191 | `https://www.youtube.com/embed/<id>` yields the id |
| `YouTubeTranscript.VShape` | scraper_api.py:191 | `https://www.youtube.com/v/<id>` yields the id |
| `YouTubeTranscript.EShape` | scraper_api.py:191 | `https://www.youtube.com/e/<id>` yields the id |
| `YouTubeTranscript.FiveShapesAgree` | scraper_api.py:189-193 | the five URL shapes carrying one id all yield that id |
| `YouTubeTranscript.VideoTitle` | scraper_api.py:195-202 | the first item's title; "Unknown Title" when `items` is absent or empty; a failure when the request or a key fails |
| `YouTubeTranscript.GetYoutubeTranscript` | scraper_api.py:204-223 | 400 exactly when no id is extracted; 500 exactly when the title or transcript fails; otherwise the URL and title |
| `YouTubeTranscript.InvalidUrlIgnoresServices` | scraper_api.py:207-209 | an URL without an id is rejected before either service is consulted |
| `YouTubeTranscript.TranscriptLayout` | scraper_api.py:214 | the transcript is the entries' texts in order with single spaces between them, of length total + n - 1, or empty |
| `ScrapperApi.ScrapePage` | scrapper_api.py:19-62 | the browser is quit exactly on the success path, never launched exactly when the launch raised, and otherwise left open |
| `ScrapperApi.BlankBodyKeepsSessionOpen` | scrapper_api.py:50-52 | a blank raw body gives the sentinel and leaves the browser open |
| `ScrapperApi.NormalisedOutput` | scrapper_api.py:54 | a body with words gives the capped join of its words, non-empty and normalised except possibly one trailing space from the cut |
| `ScrapperApi.ScrapedNeverBlank` | scrapper_api.py:19-62 | `scrape_page` never returns a blank string |
| `ScrapperApi.ScrapeUrl` | scrapper_api.py:64-80 | a URL without the "http" prefix gets 400 before any browser starts; otherwise the session is the one `scrape_page` leaves |
| `ScrapperApi.AlwaysContent` | scrapper_api.py:71-80 | after the prefix check the answer is always the URL and the text; the 500 branch is unreachable |
| `ScrapperApi.FailureServedAsContent` | scrapper_api.py:60-62 | a failure reaches the client as content starting with "Error:" |
| `ScrapperApi.PrefixCheckIsLoose` | scrapper_api.py:67-69 | "httpfoo" passes the check |
| `ScrapperApi.SessionLeaks` | scrapper_api.py:52-62 | after a request the browser is still running exactly when the URL passed, the launch worked, and the run did not reach `driver.quit()` |

## Left out

- Chromium itself is not modelled: its options, the process, `set_page_load_timeout`, every `time.sleep`, and logging. A page-load timeout appears as the load error of `driver.get`.
- CSS selector semantics are not modelled, including the `:contains(...)` selectors. Each lookup is data: a list of elements, or an exception.
- The JavaScript of the scroll instructions at scraper_api.py:119, 124 and 131 is assumed not to raise. Only the height read at line 116 can fail. In the minimal variant, the one scroll fails exactly when that height read would.
- A `driver.quit()` that raises is not modelled. `switch_to.default_content()` is assumed not to raise.
- An `el.text` that raises is folded into its tag's lookup failing. Either way `scrape_page` ends in its handler with that message.
- `body.text if body else ""` always takes its first branch: a found element is always truthy.
- The iframe pass reads each frame's `body` text (`Frame.body`, through `Browser.Driver.ReadBody`), and the model then discards it, as the code does. Which frames were entered, and what they held, is not recorded.
- The regular-expression engine is not modelled in general, only this one pattern.
- The network and JSON decoding are not modelled: the metadata reply and the transcript for the extracted id are inputs. The API key is not modelled either.
- Transcript entries carry only their `text`.
- FastAPI, pydantic and `HTTPException` are not modelled: answers are datatypes.
- Python strings are sequences of code points, so there is no encoding.
- `YouTubeTranscript.VideoTitle`: a reply whose `items` is present but not a list, or whose first item is not a mapping, is not modelled. Only absent keys are.
