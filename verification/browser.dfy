/**
 * The browser as the scrapers see it. Everything the WebDriver would
 * report is supplied as data in a `Page`; a `Driver` is one Chromium
 * session whose fields the scraper changes as it works: whether the
 * process is running, which document is the current context, and logs of
 * the scroll instructions and clicks it has issued.
 */
module Browser {
  import opened Opt

  /** A DOM element matched by an expansion selector. `id` is the node's
      identity; two selectors can match the same node. */
  datatype Element = Element(id: nat, displayed: bool, enabled: bool, clickThrows: bool)

  /** An `<iframe>`: switching into it can fail, and so can reading its body. */
  datatype Frame = Frame(switchFails: bool, body: Fetch<string>)

  /** What the browser reports for one URL.
      - `launchError`: `webdriver.Chrome(...)` raised (no process started);
      - `loadError`: `driver.get(url)` raised (for instance the page-load timeout);
      - `scrollHeight`: result of `return document.body.scrollHeight`;
      - `matches`: `find_elements(By.CSS_SELECTOR, s)` per selector; a selector
        that is not a key matches nothing;
      - `iframes`: `find_elements(By.TAG_NAME, "iframe")`;
      - `body`: the rendered text of the `body` element, or the exception
        raised while finding or reading it;
      - `tagTexts`: `find_elements(By.TAG_NAME, tag)` mapped to each element's
        rendered text; a tag that is not a key has no elements. */
  datatype Page = Page(
    launchError: Option<string>,
    loadError: Option<string>,
    scrollHeight: Fetch<int>,
    matches: map<string, Fetch<seq<Element>>>,
    iframes: Fetch<seq<Frame>>,
    body: Fetch<string>,
    tagTexts: map<string, Fetch<seq<string>>>)

  /** The browser process: never started, running, or quit. */
  datatype Session = NotLaunched | Open | Quit

  /** The document the driver is switched to. */
  datatype Context = TopLevel | InFrame(frame: Frame)

  /** A `window.scrollTo` instruction. */
  datatype Scroll = ScrollTo(y: int) | ScrollToBottom

  /** A programmatic click that went through. */
  datatype Click = Click(selector: string, element: Element)

  /** Result of a lookup keyed by selector or tag name. */
  function Lookup<T>(m: map<string, Fetch<seq<T>>>, key: string): (r: Fetch<seq<T>>)
    ensures key !in m ==> r == Got([])
    ensures key in m ==> r == m[key]
  {
    if key in m then m[key] else Got([])
  }

  class Driver {
    const page: Page
    var session: Session
    var context: Context
    var scrolls: seq<Scroll>
    var clicks: seq<Click>

    /** `webdriver.Chrome(service=..., options=...)` that did not raise. */
    constructor (page: Page)
      requires page.launchError.None?
      ensures this.page == page && session == Open && context == TopLevel
      ensures scrolls == [] && clicks == []
    {
      this.page := page;
      session := Open;
      context := TopLevel;
      scrolls := [];
      clicks := [];
    }

    /** `driver.get(url)`: the error it raises, if any. */
    method Get() returns (error: Option<string>)
      requires session == Open
      ensures error == page.loadError
    {
      error := page.loadError;
    }

    method ScrollHeight() returns (h: Fetch<int>)
      requires session == Open
      ensures h == page.scrollHeight
    {
      h := page.scrollHeight;
    }

    method ExecuteScroll(s: Scroll)
      requires session == Open
      modifies this`scrolls
      ensures scrolls == old(scrolls) + [s]
    {
      scrolls := scrolls + [s];
    }

    /** `find_elements(By.CSS_SELECTOR, selector)` in the top-level document. */
    method FindElements(selector: string) returns (r: Fetch<seq<Element>>)
      requires session == Open
      ensures r == Lookup(page.matches, selector)
    {
      r := Lookup(page.matches, selector);
    }

    /** `execute_script("arguments[0].click();", element)`: true when it did not raise. */
    method ClickElement(selector: string, element: Element) returns (ok: bool)
      requires session == Open
      modifies this`clicks
      ensures ok == !element.clickThrows
      ensures clicks == if ok then old(clicks) + [Click(selector, element)] else old(clicks)
    {
      ok := !element.clickThrows;
      if ok {
        clicks := clicks + [Click(selector, element)];
      }
    }

    method FindIframes() returns (r: Fetch<seq<Frame>>)
      requires session == Open
      ensures r == page.iframes
    {
      r := page.iframes;
    }

    /** `switch_to.frame(frame)`: true when it did not raise. */
    method SwitchToFrame(frame: Frame) returns (ok: bool)
      requires session == Open
      modifies this`context
      ensures ok == !frame.switchFails
      ensures context == if ok then InFrame(frame) else old(context)
    {
      ok := !frame.switchFails;
      if ok {
        context := InFrame(frame);
      }
    }

    /** `switch_to.default_content()`. */
    method SwitchToDefault()
      requires session == Open
      modifies this`context
      ensures context == TopLevel
    {
      context := TopLevel;
    }

    /** `find_element(By.TAG_NAME, "body").text` in the current context. */
    method ReadBody() returns (r: Fetch<string>)
      requires session == Open
      ensures r == match context
        case TopLevel => page.body
        case InFrame(f) => f.body
    {
      match context
      case TopLevel => r := page.body;
      case InFrame(f) => r := f.body;
    }

    /** `find_elements(By.TAG_NAME, tag)` followed by `.text` of each element. */
    method FindTagTexts(tag: string) returns (r: Fetch<seq<string>>)
      requires session == Open
      ensures r == Lookup(page.tagTexts, tag)
    {
      r := Lookup(page.tagTexts, tag);
    }

    /** `driver.quit()`. */
    method Quit()
      modifies this`session
      ensures session == Session.Quit
    {
      session := Session.Quit;
    }
  }
}
