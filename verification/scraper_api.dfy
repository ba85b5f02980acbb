/**
 * The page scraper of scraper_api.py: the scroll sweep, the expansion and
 * iframe passes, the aggregation of body text with the text of the
 * semantic containers, normalisation with the 200,000-character cap, the
 * outcome of `scrape_page` and the answer of the `/scrape` endpoint.
 */
module ScraperApi {
  import opened Opt
  import opened TextNorm
  import opened Browser
  import opened Responses

  /** The selectors tried by the expansion pass, in order. */
  const Catalogue: seq<string> := [
    "button.dropdown-toggle", ".accordion-toggle", ".accordion-button",
    "details summary", "[aria-expanded='false']", ".expander", ".toggleButton",
    "button:contains('Show more')", "a:contains('Read more')",
    ".show-more", ".read-more", ".view-more",
    ".collapsible", ".expandable", ".toggle"]

  /** The containers whose text is added to the body text, in order. */
  const TagOrder: seq<string> := ["p", "div", "article", "section", "main"]

  /** Scroll increment and first scroll position, in pixels. */
  const ScrollStep: int := 300

  // ---------------------------------------------------------------------
  // Scroll sweep

  /** The positions scrolled to by a cursor that starts at `cursor` and
      steps by 300 while strictly below `maxHeight`. */
  function SweepFrom(cursor: int, maxHeight: int): seq<int>
    decreases maxHeight - cursor
  {
    if cursor < maxHeight then [cursor] + SweepFrom(cursor + ScrollStep, maxHeight) else []
  }

  function SweepPositions(maxHeight: int): seq<int>
  {
    SweepFrom(ScrollStep, maxHeight)
  }

  function ScrollsTo(ys: seq<int>): (r: seq<Scroll>)
    ensures |r| == |ys| && forall i :: 0 <= i < |ys| ==> r[i] == ScrollTo(ys[i])
  {
    if |ys| == 0 then [] else ScrollsTo(ys[..|ys| - 1]) + [ScrollTo(ys[|ys| - 1])]
  }

  lemma {:induction false} SweepFromShape(cursor: int, maxHeight: int)
    ensures var s := SweepFrom(cursor, maxHeight);
      && |s| == (if cursor < maxHeight then (maxHeight - cursor + 299) / 300 else 0)
      && forall i :: 0 <= i < |s| ==> s[i] == cursor + 300 * i && s[i] < maxHeight
    decreases maxHeight - cursor
  {
    if cursor < maxHeight {
      var s := SweepFrom(cursor, maxHeight);
      var rest := SweepFrom(cursor + ScrollStep, maxHeight);
      SweepFromShape(cursor + ScrollStep, maxHeight);
      assert s == [cursor] + rest;
      forall i | 0 < i < |s| ensures s[i] == cursor + 300 * i && s[i] < maxHeight {
        assert s[i] == rest[i - 1];
      }
    }
  }

  /** The sweep scrolls to 300, 600, 900, ..., each strictly below the
      height, in increasing order, and there are max(0, ceil(h/300) - 1)
      of them. */
  lemma SweepShape(maxHeight: int)
    ensures var s := SweepPositions(maxHeight);
      && |s| == (if (maxHeight + 299) / 300 - 1 > 0 then (maxHeight + 299) / 300 - 1 else 0)
      && (forall i :: 0 <= i < |s| ==> s[i] == 300 * (i + 1) && s[i] < maxHeight)
      && (forall i, j :: 0 <= i < j < |s| ==> s[i] < s[j])
  {
    SweepFromShape(ScrollStep, maxHeight);
  }

  /** The `while scroll_height < max_height` loop; `maxHeight` is read once,
      before the loop. */
  method ScrollSweep(d: Driver, maxHeight: int) returns (positions: seq<int>)
    requires d.session == Open
    modifies d`scrolls
    ensures positions == SweepPositions(maxHeight)
    ensures d.scrolls == old(d.scrolls) + ScrollsTo(positions)
  {
    var scrollHeight := ScrollStep;
    positions := [];
    while scrollHeight < maxHeight
      invariant positions + SweepFrom(scrollHeight, maxHeight) == SweepPositions(maxHeight)
      invariant d.scrolls == old(d.scrolls) + ScrollsTo(positions)
      decreases maxHeight - scrollHeight
    {
      d.ExecuteScroll(ScrollTo(scrollHeight));
      assert SweepFrom(scrollHeight, maxHeight)
        == [scrollHeight] + SweepFrom(scrollHeight + ScrollStep, maxHeight);
      positions := positions + [scrollHeight];
      scrollHeight := scrollHeight + ScrollStep;
    }
  }

  // ---------------------------------------------------------------------
  // Expansion pass

  /** The click goes through: displayed, enabled and the click does not raise. */
  predicate Expands(e: Element)
  {
    e.displayed && e.enabled && !e.clickThrows
  }

  /** Clicks made on one selector's elements, in element order. */
  function ClicksAmong(selector: string, es: seq<Element>): seq<Click>
  {
    if |es| == 0 then []
    else
      var last := es[|es| - 1];
      ClicksAmong(selector, es[..|es| - 1]) + (if Expands(last) then [Click(selector, last)] else [])
  }

  /** A failed lookup contributes no clicks. */
  function SelectorClicks(selector: string, found: Fetch<seq<Element>>): seq<Click>
  {
    match found
    case Got(es) => ClicksAmong(selector, es)
    case Raised(_) => []
  }

  /** Clicks made by the pass over `selectors`, selector by selector. */
  function PassClicks(m: map<string, Fetch<seq<Element>>>, selectors: seq<string>): seq<Click>
  {
    if |selectors| == 0 then []
    else
      var last := selectors[|selectors| - 1];
      PassClicks(m, selectors[..|selectors| - 1]) + SelectorClicks(last, Lookup(m, last))
  }

  lemma {:induction false} ClicksAmongAppend(selector: string, a: seq<Element>, b: seq<Element>)
    ensures ClicksAmong(selector, a + b) == ClicksAmong(selector, a) + ClicksAmong(selector, b)
    decreases |b|
  {
    if |b| > 0 {
      var b' := b[..|b| - 1];
      assert (a + b)[..|a + b| - 1] == a + b';
      ClicksAmongAppend(selector, a, b');
    } else {
      assert a + b == a;
    }
  }

  /** A click is made on element `e` for selector `s` exactly when `e` is
      one of the elements `s` found and `e` is displayed, enabled and its
      click does not raise. */
  lemma {:induction false} ClicksAmongMember(selector: string, es: seq<Element>, c: Click)
    ensures c in ClicksAmong(selector, es) <==> c.selector == selector && c.element in es && Expands(c.element)
    decreases |es|
  {
    if |es| > 0 {
      var init := es[..|es| - 1];
      ClicksAmongMember(selector, init, c);
      assert es == init + [es[|es| - 1]];
    }
  }

  /** Every (selector, element) pair of the pass, and only those, is clicked:
      the selector is in the list, its lookup succeeded, the element is
      among its results and the click goes through. */
  lemma {:induction false} PassClicksMember(m: map<string, Fetch<seq<Element>>>, selectors: seq<string>, c: Click)
    ensures c in PassClicks(m, selectors) <==>
      && c.selector in selectors
      && Lookup(m, c.selector).Got?
      && c.element in Lookup(m, c.selector).value
      && Expands(c.element)
    decreases |selectors|
  {
    if |selectors| > 0 {
      var init := selectors[..|selectors| - 1];
      var last := selectors[|selectors| - 1];
      PassClicksMember(m, init, c);
      assert selectors == init + [last];
      match Lookup(m, last)
      case Got(es) => ClicksAmongMember(last, es, c);
      case Raised(_) =>
    }
  }

  /** No de-duplication across selectors: the clicks of two parts of the
      catalogue are simply concatenated. */
  lemma {:induction false} PassClicksAppend(m: map<string, Fetch<seq<Element>>>, a: seq<string>, b: seq<string>)
    ensures PassClicks(m, a + b) == PassClicks(m, a) + PassClicks(m, b)
    decreases |b|
  {
    if |b| > 0 {
      var b' := b[..|b| - 1];
      assert (a + b)[..|a + b| - 1] == a + b';
      PassClicksAppend(m, a, b');
    } else {
      assert a + b == a;
    }
  }

  /** The clicks that did not come from selector `s`. */
  function Without(cs: seq<Click>, s: string): (r: seq<Click>)
    ensures forall c :: c in r <==> c in cs && c.selector != s
  {
    if |cs| == 0 then []
    else
      var init := Without(cs[..|cs| - 1], s);
      var last := cs[|cs| - 1];
      assert cs == cs[..|cs| - 1] + [last];
      if last.selector == s then init else init + [last]
  }

  lemma {:induction false} WithoutAppend(a: seq<Click>, b: seq<Click>, s: string)
    ensures Without(a + b, s) == Without(a, s) + Without(b, s)
    decreases |b|
  {
    if |b| > 0 {
      var b' := b[..|b| - 1];
      assert (a + b)[..|a + b| - 1] == a + b';
      WithoutAppend(a, b', s);
    } else {
      assert a + b == a;
    }
  }

  lemma {:induction false} WithoutOther(selector: string, es: seq<Element>, s: string)
    requires selector != s
    ensures Without(ClicksAmong(selector, es), s) == ClicksAmong(selector, es)
    decreases |es|
  {
    if |es| > 0 {
      var init := es[..|es| - 1];
      var last := es[|es| - 1];
      WithoutOther(selector, init, s);
      var tail := if Expands(last) then [Click(selector, last)] else [];
      WithoutAppend(ClicksAmong(selector, init), tail, s);
      if Expands(last) {
        assert Without(tail, s) == tail by {
          assert tail[..0] == [];
        }
      }
    }
  }

  lemma {:induction false} WithoutSame(es: seq<Element>, s: string)
    ensures Without(ClicksAmong(s, es), s) == []
    decreases |es|
  {
    if |es| > 0 {
      var init := es[..|es| - 1];
      var last := es[|es| - 1];
      WithoutSame(init, s);
      var tail := if Expands(last) then [Click(s, last)] else [];
      WithoutAppend(ClicksAmong(s, init), tail, s);
      if Expands(last) {
        assert tail[..0] == [];
      }
    }
  }

  /** A selector whose lookup raises is skipped and nothing else changes:
      the pass makes exactly the clicks it would otherwise have made, less
      those that selector would have made. */
  lemma {:induction false} SelectorFailureIsolated(m: map<string, Fetch<seq<Element>>>, selectors: seq<string>, s: string, message: string)
    ensures PassClicks(m[s := Raised(message)], selectors) == Without(PassClicks(m, selectors), s)
    decreases |selectors|
  {
    if |selectors| > 0 {
      var init := selectors[..|selectors| - 1];
      var last := selectors[|selectors| - 1];
      SelectorFailureIsolated(m, init, s, message);
      var here := SelectorClicks(last, Lookup(m, last));
      WithoutAppend(PassClicks(m, init), here, s);
      if last == s {
        match Lookup(m, last)
        case Got(es) => WithoutSame(es, s);
        case Raised(_) =>
      } else {
        assert Lookup(m[s := Raised(message)], last) == Lookup(m, last);
        match Lookup(m, last)
        case Got(es) => WithoutOther(last, es, s);
        case Raised(_) =>
      }
    }
  }

  /** An element whose click raises (or that is hidden or disabled) is
      skipped; the elements before and after it are still clicked. */
  lemma ElementFailureIsolated(selector: string, es: seq<Element>, k: nat, failing: Element)
    requires k < |es| && !Expands(failing)
    ensures ClicksAmong(selector, es[k := failing])
      == ClicksAmong(selector, es[..k]) + ClicksAmong(selector, es[k + 1..])
  {
    var es' := es[k := failing];
    ClicksAround(selector, es', k);
    assert es'[..k] == es[..k];
    assert es'[k + 1..] == es[k + 1..];
  }

  /** The clicks of one selector split around any one of its elements. */
  lemma ClicksAround(selector: string, es: seq<Element>, k: nat)
    requires k < |es|
    ensures ClicksAmong(selector, es)
      == ClicksAmong(selector, es[..k])
         + (if Expands(es[k]) then [Click(selector, es[k])] else [])
         + ClicksAmong(selector, es[k + 1..])
  {
    assert es == es[..k] + [es[k]] + es[k + 1..];
    ClicksAmongAppend(selector, es[..k] + [es[k]], es[k + 1..]);
    ClicksAmongAppend(selector, es[..k], [es[k]]);
    assert [es[k]][..0] == [];
  }

  lemma CatalogueDistinct()
    ensures forall i, j :: 0 <= i < j < |Catalogue| ==> Catalogue[i] != Catalogue[j]
  {
  }

  lemma {:induction false} PassClicksUnmatched(m: map<string, Fetch<seq<Element>>>, selectors: seq<string>)
    requires forall i :: 0 <= i < |selectors| ==> selectors[i] !in m
    ensures PassClicks(m, selectors) == []
    decreases |selectors|
  {
    if |selectors| > 0 {
      PassClicksUnmatched(m, selectors[..|selectors| - 1]);
    }
  }

  /** Over any list of selectors, an element matched by the selectors at
      two positions (and nothing matched by the others) is clicked once for
      each. */
  lemma SharedElementAcross(m: map<string, Fetch<seq<Element>>>, sels: seq<string>, i: nat, j: nat, e: Element)
    requires i < j < |sels| && Expands(e)
    requires sels[i] in m && m[sels[i]] == Got([e]) && sels[j] in m && m[sels[j]] == Got([e])
    requires forall k :: 0 <= k < |sels| && k != i && k != j ==> sels[k] !in m
    ensures PassClicks(m, sels) == [Click(sels[i], e), Click(sels[j], e)]
  {
    SliceUnmatched(m, sels, 0, i);
    SliceUnmatched(m, sels, i + 1, j);
    SliceUnmatched(m, sels, j + 1, |sels|);
    OneSelector(m, sels[i], e);
    OneSelector(m, sels[j], e);
    CombineAround(m, sels, i, j, Click(sels[i], e), Click(sels[j], e));
  }

  lemma CombineAround(m: map<string, Fetch<seq<Element>>>, sels: seq<string>, i: nat, j: nat, x: Click, y: Click)
    requires i < j < |sels|
    requires PassClicks(m, sels[0..i]) == [] && PassClicks(m, sels[i + 1..j]) == []
    requires PassClicks(m, sels[j + 1..|sels|]) == []
    requires PassClicks(m, [sels[i]]) == [x] && PassClicks(m, [sels[j]]) == [y]
    ensures PassClicks(m, sels) == [x, y]
  {
    SplitAround(sels, i, j);
    PassClicksFive(m, sels[0..i], sels[i], sels[i + 1..j], sels[j], sels[j + 1..|sels|]);
    OnlyTwo(PassClicks(m, sels[0..i]), PassClicks(m, [sels[i]]), PassClicks(m, sels[i + 1..j]),
      PassClicks(m, [sels[j]]), PassClicks(m, sels[j + 1..|sels|]), x, y);
  }

  lemma OnlyTwo<T>(p: seq<T>, q: seq<T>, r: seq<T>, s: seq<T>, t: seq<T>, x: T, y: T)
    requires p == [] && q == [x] && r == [] && s == [y] && t == []
    ensures p + q + r + s + t == [x, y]
  {
  }

  lemma SplitAround<T>(s: seq<T>, i: nat, j: nat)
    requires i < j < |s|
    ensures s == s[0..i] + [s[i]] + s[i + 1..j] + [s[j]] + s[j + 1..|s|]
  {
    assert s[0..i] + [s[i]] == s[..i + 1];
    assert s[..i + 1] + s[i + 1..j] == s[..j];
    assert s[..j] + [s[j]] == s[..j + 1];
    assert s[..j + 1] + s[j + 1..|s|] == s;
  }

  lemma PassClicksFive(m: map<string, Fetch<seq<Element>>>, a: seq<string>, s: string, b: seq<string>, t: string, c: seq<string>)
    ensures PassClicks(m, a + [s] + b + [t] + c)
      == PassClicks(m, a) + PassClicks(m, [s]) + PassClicks(m, b) + PassClicks(m, [t]) + PassClicks(m, c)
  {
    PassClicksAppend(m, a, [s]);
    PassClicksAppend(m, a + [s], b);
    PassClicksAppend(m, a + [s] + b, [t]);
    PassClicksAppend(m, a + [s] + b + [t], c);
  }

  lemma SliceUnmatched(m: map<string, Fetch<seq<Element>>>, sels: seq<string>, lo: nat, hi: nat)
    requires lo <= hi <= |sels|
    requires forall k :: lo <= k < hi ==> sels[k] !in m
    ensures PassClicks(m, sels[lo..hi]) == []
  {
    var t := sels[lo..hi];
    assert forall k :: 0 <= k < |t| ==> t[k] == sels[lo + k];
    PassClicksUnmatched(m, t);
  }

  lemma OneSelector(m: map<string, Fetch<seq<Element>>>, s: string, e: Element)
    requires s in m && m[s] == Got([e]) && Expands(e)
    ensures PassClicks(m, [s]) == [Click(s, e)]
  {
    assert [s][..0] == [];
    assert [e][..0] == [];
    assert ClicksAmong(s, [e]) == [Click(s, e)];
    assert PassClicks(m, [s]) == PassClicks(m, []) + ClicksAmong(s, [e]);
  }

  /** An element matched by two catalogue selectors is clicked, and counted,
      once for each of them. */
  lemma SharedElementClickedTwice(e: Element, i: nat, j: nat)
    requires i < j < |Catalogue| && Expands(e)
    ensures var m := map[Catalogue[i] := Got([e]), Catalogue[j] := Got([e])];
      PassClicks(m, Catalogue) == [Click(Catalogue[i], e), Click(Catalogue[j], e)]
  {
    var m := map[Catalogue[i] := Got([e]), Catalogue[j] := Got([e])];
    CatalogueDistinct();
    forall k | 0 <= k < |Catalogue| && k != i && k != j
      ensures Catalogue[k] !in m
    {
      if k < i {
        assert Catalogue[k] != Catalogue[i] && Catalogue[k] != Catalogue[j];
      } else if k < j {
        assert Catalogue[i] != Catalogue[k] && Catalogue[k] != Catalogue[j];
      } else {
        assert Catalogue[i] != Catalogue[k] && Catalogue[j] != Catalogue[k];
      }
    }
    SharedElementAcross(m, Catalogue, i, j, e);
  }

  /** The selector and element loops of `expand_dropdowns_and_hidden_content`,
      followed by its iframe pass. `expandedCount` is the number of clicks
      that went through. */
  method ExpandHiddenContent(d: Driver) returns (expandedCount: nat)
    requires d.session == Open && d.context == TopLevel
    modifies d`clicks, d`context
    ensures d.clicks == old(d.clicks) + PassClicks(d.page.matches, Catalogue)
    ensures expandedCount == |PassClicks(d.page.matches, Catalogue)|
    ensures d.context == TopLevel
  {
    expandedCount := ClickSelectors(d, Catalogue);
    SwitchThroughFrames(d);
  }

  /** The selector loop: for each selector in turn, find its matches and
      run the element loop over them; a lookup that raises is skipped. */
  method ClickSelectors(d: Driver, selectors: seq<string>) returns (count: nat)
    requires d.session == Open
    modifies d`clicks
    ensures d.clicks == old(d.clicks) + PassClicks(d.page.matches, selectors)
    ensures count == |PassClicks(d.page.matches, selectors)|
  {
    count := 0;
    var i := 0;
    while i < |selectors|
      invariant 0 <= i <= |selectors|
      invariant d.clicks == old(d.clicks) + PassClicks(d.page.matches, selectors[..i])
      invariant count == |PassClicks(d.page.matches, selectors[..i])|
    {
      var selector := selectors[i];
      var found := d.FindElements(selector);
      assert selectors[..i + 1][..i] == selectors[..i];
      assert PassClicks(d.page.matches, selectors[..i + 1])
        == PassClicks(d.page.matches, selectors[..i]) + SelectorClicks(selector, found);
      if found.Got? {
        var n := ClickMatches(d, selector, found.value);
        count := count + n;
      }
      i := i + 1;
    }
    assert selectors[..i] == selectors;
  }

  /** The element loop for one selector: click each displayed and enabled
      element, count the clicks that did not raise, skip the others. */
  method ClickMatches(d: Driver, selector: string, elements: seq<Element>) returns (n: nat)
    requires d.session == Open
    modifies d`clicks
    ensures d.clicks == old(d.clicks) + ClicksAmong(selector, elements)
    ensures n == |ClicksAmong(selector, elements)|
  {
    n := 0;
    var k := 0;
    while k < |elements|
      invariant 0 <= k <= |elements|
      invariant d.clicks == old(d.clicks) + ClicksAmong(selector, elements[..k])
      invariant n == |ClicksAmong(selector, elements[..k])|
    {
      var element := elements[k];
      if element.displayed && element.enabled {
        var clicked := d.ClickElement(selector, element);
        if clicked {
          n := n + 1;
        }
      }
      assert elements[..k + 1][..k] == elements[..k];
      k := k + 1;
    }
    assert elements[..k] == elements;
  }

  /** The iframe loop: each frame is entered if possible, its body text is
      read and discarded, and the driver always switches back to the
      top-level document, whether entering or reading succeeded or not. */
  method SwitchThroughFrames(d: Driver)
    requires d.session == Open && d.context == TopLevel
    modifies d`context
    ensures d.context == TopLevel
  {
    var frames := d.FindIframes();
    if frames.Got? {
      var i := 0;
      while i < |frames.value|
        invariant d.context == TopLevel
      {
        var entered := d.SwitchToFrame(frames.value[i]);
        if entered {
          var iframeText := d.ReadBody();
        }
        d.SwitchToDefault();
        i := i + 1;
      }
    }
  }

  // ---------------------------------------------------------------------
  // Aggregation

  /** The texts of the elements of each tag, tag by tag and element by
      element, or the first lookup that raised. */
  function TagTexts(m: map<string, Fetch<seq<string>>>, tags: seq<string>): Fetch<seq<string>>
  {
    if |tags| == 0 then Got([])
    else
      match TagTexts(m, tags[..|tags| - 1])
      case Raised(message) => Raised(message)
      case Got(before) =>
        match Lookup(m, tags[|tags| - 1])
        case Raised(message) => Raised(message)
        case Got(texts) => Got(before + texts)
  }

  /** `additional_text` after `additional_text += " " + el.text` over `ts`. */
  function Prefixed(ts: seq<string>): string
  {
    if |ts| == 0 then "" else Prefixed(ts[..|ts| - 1]) + " " + ts[|ts| - 1]
  }

  /** The words of each text in turn. */
  function WordsOfEach(ts: seq<string>): seq<string>
  {
    if |ts| == 0 then [] else WordsOfEach(ts[..|ts| - 1]) + Words(ts[|ts| - 1])
  }

  function AdditionalText(m: map<string, Fetch<seq<string>>>): Fetch<string>
  {
    match TagTexts(m, TagOrder)
    case Got(ts) => Got(Prefixed(ts))
    case Raised(message) => Raised(message)
  }

  lemma {:induction false} TagTextsRaisedSticks(m: map<string, Fetch<seq<string>>>, tags: seq<string>, k: nat)
    requires k <= |tags| && TagTexts(m, tags[..k]).Raised?
    ensures TagTexts(m, tags) == TagTexts(m, tags[..k])
    decreases |tags|
  {
    if k < |tags| {
      assert tags[..|tags| - 1][..k] == tags[..k];
      TagTextsRaisedSticks(m, tags[..|tags| - 1], k);
    } else {
      assert tags[..k] == tags;
    }
  }

  lemma {:induction false} PrefixedAppend(a: seq<string>, b: seq<string>)
    ensures Prefixed(a + b) == Prefixed(a) + Prefixed(b)
    decreases |b|
  {
    if |b| > 0 {
      var b' := b[..|b| - 1];
      assert (a + b)[..|a + b| - 1] == a + b';
      PrefixedAppend(a, b');
    } else {
      assert a + b == a;
    }
  }

  /** The tag and element loops that build `additional_text`. A lookup that
      raises ends the loops with its exception. */
  method CollectElementText(d: Driver) returns (additional: Fetch<string>)
    requires d.session == Open
    ensures additional == AdditionalText(d.page.tagTexts)
  {
    var text := "";
    ghost var done: seq<string> := [];
    var i := 0;
    while i < |TagOrder|
      invariant 0 <= i <= |TagOrder|
      invariant TagTexts(d.page.tagTexts, TagOrder[..i]) == Got(done)
      invariant text == Prefixed(done)
    {
      var tag := TagOrder[i];
      var found := d.FindTagTexts(tag);
      assert TagOrder[..i + 1][..i] == TagOrder[..i];
      if found.Raised? {
        TagTextsRaisedSticks(d.page.tagTexts, TagOrder, i + 1);
        return Raised(found.message);
      }
      var elements := found.value;
      var k := 0;
      assert done + elements[..0] == done;
      while k < |elements|
        invariant 0 <= k <= |elements|
        invariant text == Prefixed(done + elements[..k])
      {
        assert (done + elements[..k + 1])[..|done| + k] == done + elements[..k];
        text := text + " " + elements[k];
        k := k + 1;
      }
      assert elements[..k] == elements;
      done := done + elements;
      i := i + 1;
    }
    assert TagOrder[..i] == TagOrder;
    return Got(text);
  }

  /** Before the cut, the text is the words of the body followed by the
      words of every container element, in tag order and element order. */
  lemma {:induction false} CombinedWords(body: string, ts: seq<string>)
    ensures Words(body + " " + Prefixed(ts)) == Words(body) + WordsOfEach(ts)
    decreases |ts|
  {
    if |ts| == 0 {
      assert body + " " + Prefixed(ts) == body + [' '] + [];
      WordsSplitAt(body, ' ', []);
    } else {
      var init := ts[..|ts| - 1];
      var last := ts[|ts| - 1];
      var before := body + " " + Prefixed(init);
      CombinedWords(body, init);
      PrefixedSnoc(body, ts);
      WordsSplitAt(before, ' ', last);
      ConcatAssoc(Words(body), WordsOfEach(init), Words(last));
    }
  }

  lemma PrefixedSnoc(body: string, ts: seq<string>)
    requires |ts| > 0
    ensures body + " " + Prefixed(ts) == (body + " " + Prefixed(ts[..|ts| - 1])) + [' '] + ts[|ts| - 1]
  {
  }

  lemma ConcatAssoc<T>(a: seq<T>, b: seq<T>, c: seq<T>)
    ensures (a + b) + c == a + (b + c)
  {
  }

  // ---------------------------------------------------------------------
  // scrape_page

  /** The message of the first step after launch that raises, in program
      order: navigation, the height script, the body, the container lookups.
      The expansion pass absorbs its own exceptions. */
  function PageFailure(p: Page): Option<string>
  {
    if p.loadError.Some? then p.loadError
    else if p.scrollHeight.Raised? then Some(p.scrollHeight.message)
    else if p.body.Raised? then Some(p.body.message)
    else
      match AdditionalText(p.tagTexts)
      case Raised(message) => Some(message)
      case Got(_) => None
  }

  /** `combined_text` when nothing raised. */
  function CombinedText(p: Page): string
    requires PageFailure(p).None?
  {
    p.body.value + " " + AdditionalText(p.tagTexts).value
  }

  /** What `scrape_page` returns and the state it leaves the browser in. */
  function Outcome(p: Page): (r: Scraped)
    ensures r.session != Open
    ensures r.session == NotLaunched <==> p.launchError.Some?
  {
    if p.launchError.Some? then Scraped(ErrorText(p.launchError.value), NotLaunched)
    else
      match PageFailure(p)
      case Some(message) => Scraped(ErrorText(message), Quit)
      case None =>
        var extracted := Cap(Normalise(CombinedText(p)));
        Scraped(if Blank(extracted) then NoTextError else extracted, Quit)
  }

  /** `scrape_page`, step by step against a browser that serves `p`. */
  method ScrapePage(p: Page) returns (text: string, session: Session)
    ensures Scraped(text, session) == Outcome(p)
  {
    if p.launchError.Some? {
      // `driver` is unbound, so the `driver.quit()` in the handler raises and is swallowed.
      return ErrorText(p.launchError.value), NotLaunched;
    }
    var d := new Driver(p);
    var loadError := d.Get();
    if loadError.Some? {
      d.Quit();
      return ErrorText(loadError.value), d.session;
    }
    var maxHeight := d.ScrollHeight();
    if maxHeight.Raised? {
      d.Quit();
      return ErrorText(maxHeight.message), d.session;
    }
    var _ := ScrollSweep(d, maxHeight.value);
    d.ExecuteScroll(ScrollTo(0));
    var _ := ExpandHiddenContent(d);
    d.ExecuteScroll(ScrollToBottom);
    var body := d.ReadBody();
    if body.Raised? {
      d.Quit();
      return ErrorText(body.message), d.session;
    }
    var additional := CollectElementText(d);
    if additional.Raised? {
      d.Quit();
      return ErrorText(additional.message), d.session;
    }
    var combined := body.value + " " + additional.value;
    var extracted := Cap(Normalise(combined));
    d.Quit();
    if Blank(extracted) {
      return NoTextError, d.session;
    }
    return extracted, d.session;
  }

  /** When nothing raises, `scrape_page` returns the sentinel exactly when
      the page has no words, and otherwise the words of the body and of the
      containers joined by single spaces and cut at 200,000 characters:
      non-blank, no leading whitespace, no whitespace but ' ', no doubled
      space, of length min(200000, length of the join). */
  lemma OutcomeText(p: Page)
    requires p.launchError.None? && PageFailure(p).None?
    ensures var ws := Words(p.body.value) + WordsOfEach(TagTexts(p.tagTexts, TagOrder).value);
      var text := Outcome(p).text;
      && (ws == [] ==> text == NoTextError)
      && (ws != [] ==>
            && text == Cap(Join(ws))
            && |text| == (if |Join(ws)| <= ContentCap then |Join(ws)| else ContentCap)
            && !Blank(text) && NoLeadingSpace(text) && SpacesOnly(text) && NoDoubleSpace(text))
  {
    var ts := TagTexts(p.tagTexts, TagOrder).value;
    CombinedWords(p.body.value, ts);
    var ws := Words(p.body.value) + WordsOfEach(ts);
    assert Words(CombinedText(p)) == ws;
    var joined := Join(ws);
    JoinNormalised(ws);
    CappedShape(joined);
    if ws != [] {
      JoinOfWordsNonEmpty(ws);
      assert !IsSpace(Cap(joined)[0]);
    } else {
      assert Cap(joined) == [];
    }
  }

  /** `scrape_page` never returns a blank string. */
  lemma OutcomeNeverBlank(p: Page)
    ensures !Blank(Outcome(p).text)
  {
    NoTextErrorShape();
    if p.launchError.None? && PageFailure(p).None? {
      OutcomeText(p);
    }
  }

  /** The frames do not affect the outcome: the text read inside them is
      discarded. */
  lemma IframesDoNotMatter(p: Page, frames: Fetch<seq<Frame>>)
    ensures Outcome(p.(iframes := frames)) == Outcome(p)
  {
  }

  // ---------------------------------------------------------------------
  // The /scrape endpoint

  /** `scrape_url`: the `http` prefix check, then `scrape_page`, then the
      mapping of its string to a response. */
  function ScrapeUrl(url: string, p: Page): (r: Served)
    ensures !StartsWith(url, "http") ==> r == Served(Failure(400, "Invalid URL format"), NotLaunched)
    ensures r.session != Open
  {
    if !StartsWith(url, "http") then Served(Failure(400, "Invalid URL format"), NotLaunched)
    else Answer(url, Outcome(p))
  }

  /** The checks `scrape_url` makes on the string `scrape_page` returned. */
  function Answer(url: string, scraped: Scraped): Served
  {
    if StartsWith(scraped.text, "Error:") then Served(Failure(500, scraped.text), scraped.session)
    else if Blank(scraped.text) then Served(Failure(500, "No content extracted"), scraped.session)
    else Served(Content(url, scraped.text), scraped.session)
  }

  lemma AnswerMapping(url: string, scraped: Scraped)
    requires !Blank(scraped.text)
    ensures var response := Answer(url, scraped).response;
      && (response.Failure? <==> StartsWith(scraped.text, "Error:"))
      && (response.Failure? ==> response == Failure(500, scraped.text))
      && (response.Content? ==> response == Content(url, scraped.text))
      && response != Failure(500, "No content extracted")
  {
    var e := "No content extracted";
    assert e[..6] != "Error:" by { assert e[0] != 'E'; }
  }

  /** After the prefix check, the endpoint fails with 500 exactly when
      `scrape_page` returned an "Error:" string, and passes that string on
      as the detail; otherwise it answers with the URL and the text. The
      branch for a blank result is never taken. */
  lemma ScrapeUrlMapping(url: string, p: Page)
    requires StartsWith(url, "http")
    ensures var text := Outcome(p).text;
      var response := ScrapeUrl(url, p).response;
      && (response.Failure? <==> StartsWith(text, "Error:"))
      && (response.Failure? ==> response == Failure(500, text))
      && (response.Content? ==> response == Content(url, text))
      && response != Failure(500, "No content extracted")
  {
    OutcomeNeverBlank(p);
    AnswerMapping(url, Outcome(p));
  }

  /** The "Error:" convention is ambiguous: a page whose own text starts
      with "Error:" is answered as a 500 failure carrying that text. */
  lemma PageTextLooksLikeError(url: string, p: Page)
    requires StartsWith(url, "http") && p.launchError.None? && PageFailure(p).None?
    requires StartsWith(Normalise(CombinedText(p)), "Error:")
    ensures ScrapeUrl(url, p).response == Failure(500, Cap(Normalise(CombinedText(p))))
  {
    var n := Normalise(CombinedText(p));
    var c := Cap(n);
    assert c[..6] == n[..6];
    assert !IsSpace(c[0]);
  }
}
