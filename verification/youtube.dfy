/**
 * The YouTube helpers of the richer service: `extract_video_id`, the title
 * fallback of `get_video_title` and the `/get-transcript` endpoint.
 *
 * `extract_video_id` runs `re.search` with the pattern
 *   (?:youtube\.com\/(?:[^\/]+\/.+\/|(?:v|e(?:mbed)?)\/|.*[?&]v=)|youtu\.be\/)([^"&?\/\s]{11})
 * and returns group 1. `MatchAt` is that pattern, anchored at one start
 * position, written as a deterministic matcher that tries the alternatives
 * and the backtracking choices in the order the regular-expression engine
 * does; `Search` tries start positions left to right. `.` does not match a
 * newline, `[^/]` does, and `\s` is Python's whitespace.
 *
 * The metadata request and the transcript library are not called: their
 * replies for the extracted id are parameters.
 */
module YouTubeTranscript {
  import opened Opt
  import opened TextNorm

  // ---------------------------------------------------------------------
  // extract_video_id

  const IdLength: nat := 11

  /** `[^"&?/\s]`. */
  predicate IsIdChar(c: char)
  {
    c != '"' && c != '&' && c != '?' && c != '/' && !IsSpace(c)
  }

  /** What group 1 can capture: eleven characters of the id class. */
  predicate IsVideoId(id: string)
  {
    |id| == IdLength && forall k :: 0 <= k < |id| ==> IsIdChar(id[k])
  }

  /** Group 1 can be matched at `j`. */
  predicate IdAt(s: string, j: nat)
  {
    j + IdLength <= |s| && forall k :: j <= k < j + IdLength ==> IsIdChar(s[k])
  }

  /** The literal `lit` occurs in `s` at `i`. */
  predicate HasAt(s: string, i: nat, lit: string)
  {
    i + |lit| <= |s| && s[i..i + |lit|] == lit
  }

  predicate Contains(s: string, lit: string)
  {
    exists i :: 0 <= i <= |s| && HasAt(s, i, lit)
  }

  /** The first position at or after `p` holding `c`, or `|s|`. */
  function FirstFrom(s: string, p: nat, c: char): (r: nat)
    requires p <= |s|
    ensures p <= r <= |s|
    ensures r < |s| ==> s[r] == c
    ensures forall k :: p <= k < r ==> s[k] != c
    decreases |s| - p
  {
    if p == |s| then |s|
    else if s[p] == c then p
    else FirstFrom(s, p + 1, c)
  }

  /** `/` followed by an id at `r`. */
  predicate SlashIdAt(s: string, r: nat)
  {
    r < |s| && s[r] == '/' && IdAt(s, r + 1)
  }

  /** `[?&]v=` followed by an id at `r`. */
  predicate ParamIdAt(s: string, r: nat)
  {
    r + 3 <= |s| && (s[r] == '?' || s[r] == '&') && s[r + 1] == 'v' && s[r + 2] == '=' && IdAt(s, r + 3)
  }

  /** The greedy `.+` or `.*` before a `/`: the last position in `[lo, hi)`
      where the rest of the pattern matches. */
  function LastSlashId(s: string, lo: nat, hi: nat): (r: Option<nat>)
    ensures r.Some? ==> lo <= r.value < hi && SlashIdAt(s, r.value)
    ensures r.Some? ==> forall k :: r.value < k < hi ==> !SlashIdAt(s, k)
    ensures r.None? ==> forall k :: lo <= k < hi ==> !SlashIdAt(s, k)
    decreases hi
  {
    if hi <= lo then None
    else if SlashIdAt(s, hi - 1) then Some(hi - 1)
    else LastSlashId(s, lo, hi - 1)
  }

  /** The same backtracking order for `.*[?&]v=`. */
  function LastParamId(s: string, lo: nat, hi: nat): (r: Option<nat>)
    ensures r.Some? ==> lo <= r.value < hi && ParamIdAt(s, r.value)
    ensures r.Some? ==> forall k :: r.value < k < hi ==> !ParamIdAt(s, k)
    ensures r.None? ==> forall k :: lo <= k < hi ==> !ParamIdAt(s, k)
    decreases hi
  {
    if hi <= lo then None
    else if ParamIdAt(s, hi - 1) then Some(hi - 1)
    else LastParamId(s, lo, hi - 1)
  }

  /** `[^/]+/.+/` then the id, after `youtube.com/` at `p`. `[^/]+` can only
      end at the first `/`; `.+` stays on the line and gives back characters
      from the right until a `/` followed by an id is found. The result is
      where the id starts. */
  function NestedPath(s: string, p: nat): (r: Option<nat>)
    requires p <= |s|
    ensures r.Some? ==> p < r.value && IdAt(s, r.value) && s[r.value - 1] == '/'
  {
    var q := FirstFrom(s, p, '/');
    if q == p || q == |s| then None
    else
      match LastSlashId(s, q + 2, FirstFrom(s, q + 1, '\n'))
      case Some(r) => Some(r + 1)
      case None => None
  }

  /** `.*[?&]v=` then the id, after `youtube.com/` at `p`. */
  function QueryParam(s: string, p: nat): (r: Option<nat>)
    requires p <= |s|
    ensures r.Some? ==> p + 3 <= r.value && IdAt(s, r.value) && s[r.value - 2..r.value] == "v="
  {
    match LastParamId(s, p, FirstFrom(s, p, '\n'))
    case Some(r) => Some(r + 3)
    case None => None
  }

  /** The inner alternation, tried in order after `youtube.com/` at `p`:
      the nested path, `v/`, `embed/`, `e/`, then the query parameter. */
  function AfterHost(s: string, p: nat): (r: Option<nat>)
    requires p <= |s|
    ensures r.Some? ==> p < r.value && IdAt(s, r.value)
  {
    var nested := NestedPath(s, p);
    if nested.Some? then nested
    else if HasAt(s, p, "v/") && IdAt(s, p + 2) then Some(p + 2)
    else if HasAt(s, p, "embed/") && IdAt(s, p + 6) then Some(p + 6)
    else if HasAt(s, p, "e/") && IdAt(s, p + 2) then Some(p + 2)
    else QueryParam(s, p)
  }

  /** The pattern anchored at `i`: where group 1 starts, if it matches. */
  function MatchAt(s: string, i: nat): (r: Option<nat>)
    ensures r.Some? ==> i < r.value && IdAt(s, r.value)
    ensures r.Some? ==> HasAt(s, i, "youtube.com/") || HasAt(s, i, "youtu.be/")
  {
    if HasAt(s, i, "youtube.com/") then AfterHost(s, i + 12)
    else if HasAt(s, i, "youtu.be/") && IdAt(s, i + 9) then Some(i + 9)
    else None
  }

  /** `re.search` from position `i`: the match at the leftmost start
      position where the pattern matches. */
  function Search(s: string, i: nat): (r: Option<nat>)
    requires i <= |s|
    ensures r.Some? ==> IdAt(s, r.value)
    decreases |s| - i
  {
    var here := MatchAt(s, i);
    if here.Some? then here
    else if i == |s| then None
    else Search(s, i + 1)
  }

  /** The leftmost start position that matches decides the result. */
  lemma {:induction false} FirstMatchWins(s: string, i: nat, k: nat)
    requires i <= k <= |s| && MatchAt(s, k).Some?
    requires forall x :: i <= x < k ==> MatchAt(s, x).None?
    ensures Search(s, i) == MatchAt(s, k)
    decreases k - i
  {
    if i < k {
      FirstMatchWins(s, i + 1, k);
    }
  }

  /** No start position matches: the search finds nothing. */
  lemma {:induction false} NoMatchNoId(s: string, i: nat)
    requires i <= |s|
    requires forall x :: i <= x <= |s| ==> MatchAt(s, x).None?
    ensures Search(s, i).None?
    decreases |s| - i
  {
    if i < |s| {
      NoMatchNoId(s, i + 1);
    }
  }

  /** `extract_video_id(url)`. */
  function ExtractVideoId(url: string): (id: Option<string>)
    ensures id.Some? ==> IsVideoId(id.value)
    ensures id.Some? ==> exists j: nat :: IdAt(url, j) && url[j..j + IdLength] == id.value
  {
    match Search(url, 0)
    case Some(j) => Some(url[j..j + IdLength])
    case None => None
  }

  /** Without either literal in the URL there is no id. */
  lemma NoAnchorNoId(url: string)
    requires !Contains(url, "youtube.com/") && !Contains(url, "youtu.be/")
    ensures ExtractVideoId(url) == None
  {
    forall k | 0 <= k <= |url|
      ensures MatchAt(url, k).None?
    {
      assert !HasAt(url, k, "youtube.com/") && !HasAt(url, k, "youtu.be/");
    }
    NoMatchNoId(url, 0);
  }

  /** Both literals start with `y`: no match can start on another letter. */
  lemma NoMatchOffY(s: string, x: nat)
    requires x < |s| && s[x] != 'y'
    ensures MatchAt(s, x).None?
  {
    assert !HasAt(s, x, "youtube.com/") by {
      if x + 12 <= |s| {
        assert s[x..x + 12][0] == s[x];
      }
    }
    assert !HasAt(s, x, "youtu.be/") by {
      if x + 9 <= |s| {
        assert s[x..x + 9][0] == s[x];
      }
    }
  }

  /** A prefix with no `y` before position `k`: the search starts at `k`. */
  lemma SkipPrefix(s: string, k: nat)
    requires k <= |s| && MatchAt(s, k).Some? && 'y' !in s[..k]
    ensures Search(s, 0) == MatchAt(s, k)
  {
    forall x | 0 <= x < k
      ensures MatchAt(s, x).None?
    {
      assert s[x] == s[..k][x];
      NoMatchOffY(s, x);
    }
    FirstMatchWins(s, 0, k);
  }

  lemma FirstFromAbsent(s: string, p: nat, c: char)
    requires p <= |s| && c !in s[p..]
    ensures FirstFrom(s, p, c) == |s|
  {
    forall k | p <= k < |s|
      ensures s[k] != c
    {
      assert s[k] == s[p..][k - p];
    }
  }

  lemma FirstFromAt(s: string, p: nat, q: nat, c: char)
    requires p <= q < |s| && c !in s[p..q] && s[q] == c
    ensures FirstFrom(s, p, c) == q
  {
    forall k | p <= k < q
      ensures s[k] != c
    {
      assert s[k] == s[p..q][k - p];
    }
  }

  /** A literal that differs from `s` at one position is not at `i`. */
  lemma NotAt(s: string, i: nat, lit: string, k: nat)
    requires k < |lit| && i + k < |s| && s[i + k] != lit[k]
    ensures !HasAt(s, i, lit)
  {
    if i + |lit| <= |s| {
      assert s[i..i + |lit|][k] == s[i + k];
    }
  }

  /** None of the characters the id class excludes occurs in an id. */
  lemma IdExcludes(id: string)
    requires IsVideoId(id)
    ensures '/' !in id && '?' !in id && '&' !in id && '\n' !in id
  {
    assert IsIdChar(id[0]);
  }

  /** `pre + id` has the id at `|pre|`. */
  lemma IdTail(pre: string, id: string)
    requires IsVideoId(id)
    ensures IdAt(pre + id, |pre|) && (pre + id)[|pre|..|pre| + IdLength] == id
  {
    var s := pre + id;
    forall k | |pre| <= k < |pre| + IdLength
      ensures IsIdChar(s[k])
    {
      assert s[k] == id[k - |pre|];
    }
  }

  /** After `youtube.com/` at `p`, `watch?v=` and an id: only the query
      parameter alternative matches, and `.*` stops at the `?`. */
  lemma QueryAfterHost(s: string, p: nat, id: string)
    requires p <= |s| && s[p..] == "watch?v=" + id && IsVideoId(id)
    ensures AfterHost(s, p) == Some(p + 8)
  {
    var t := s[p..];
    IdExcludes(id);
    FirstFromAbsent(s, p, '/');
    FirstFromAbsent(s, p, '\n');
    NotAt(s, p, "v/", 0);
    NotAt(s, p, "embed/", 0);
    NotAt(s, p, "e/", 0);
    assert s[p + 5] == t[5] && s[p + 6] == t[6] && s[p + 7] == t[7];
    assert s[p + 8..] == id;
    IdTail(s[..p + 8], id);
    assert s == s[..p + 8] + id;
    forall k | p + 5 < k < |s|
      ensures !ParamIdAt(s, k)
    {
      assert s[k] == t[k - p];
      if k >= p + 8 {
        assert t[k - p] == id[k - p - 8];
      }
    }
    assert t[5] == '?' && t[6] == 'v' && t[7] == '=';
    assert ParamIdAt(s, p + 5);
    assert LastParamId(s, p, |s|) == Some(p + 5);
  }

  /** After `youtube.com/` at `p`, a name without `/`, then `/` and an id:
      `[^/]+` takes the name but `.+/` finds no second `/`. */
  lemma NestedPathFails(s: string, p: nat, name: string, id: string)
    requires p <= |s| && s[p..] == name + "/" + id && IsVideoId(id) && '/' !in name
    ensures NestedPath(s, p).None?
  {
    var q := p + |name|;
    var t := s[p..];
    IdExcludes(id);
    assert s[p..q] == name;
    assert s[q] == t[|name|];
    FirstFromAt(s, p, q, '/');
    var e := FirstFrom(s, q + 1, '\n');
    forall k | q + 2 <= k < e
      ensures !SlashIdAt(s, k)
    {
      assert s[k] == t[k - p];
      assert t[k - p] == id[k - q - 1];
    }
  }

  lemma VAfterHost(s: string, p: nat, id: string)
    requires p <= |s| && s[p..] == "v/" + id && IsVideoId(id)
    ensures AfterHost(s, p) == Some(p + 2)
  {
    assert "v/" + id == "v" + "/" + id;
    NestedPathFails(s, p, "v", id);
    assert s[p..p + 2] == "v/";
    assert s == s[..p + 2] + id;
    IdTail(s[..p + 2], id);
  }

  lemma EmbedAfterHost(s: string, p: nat, id: string)
    requires p <= |s| && s[p..] == "embed/" + id && IsVideoId(id)
    ensures AfterHost(s, p) == Some(p + 6)
  {
    assert "embed/" + id == "embed" + "/" + id;
    NestedPathFails(s, p, "embed", id);
    assert s[p] == 'e';
    NotAt(s, p, "v/", 0);
    assert s[p..p + 6] == "embed/";
    assert s == s[..p + 6] + id;
    IdTail(s[..p + 6], id);
  }

  lemma EAfterHost(s: string, p: nat, id: string)
    requires p <= |s| && s[p..] == "e/" + id && IsVideoId(id)
    ensures AfterHost(s, p) == Some(p + 2)
  {
    assert "e/" + id == "e" + "/" + id;
    NestedPathFails(s, p, "e", id);
    assert s[p] == 'e' && s[p + 1] == '/';
    NotAt(s, p, "v/", 0);
    NotAt(s, p, "embed/", 1);
    assert s[p..p + 2] == "e/";
    assert s == s[..p + 2] + id;
    IdTail(s[..p + 2], id);
  }

  const Scheme: string := "https://www."
  const Host: string := "youtube.com/"
  const WatchPrefix: string := Scheme + Host + "watch?v="
  const ShortPrefix: string := "https://" + "youtu.be/"
  const EmbedPrefix: string := Scheme + Host + "embed/"
  const VPrefix: string := Scheme + Host + "v/"
  const EPrefix: string := Scheme + Host + "e/"

  /** The pieces of `a + b + c + d`. */
  lemma Layout(a: string, b: string, c: string, d: string)
    ensures (a + b + c + d)[..|a|] == a
    ensures (a + b + c + d)[|a|..|a| + |b|] == b
    ensures (a + b + c + d)[|a| + |b|..] == c + d
  {
  }

  /** `https://www.youtube.com/` then `tail` and an id: the search starts at
      `youtube.com/`, and the id is found if the inner alternation finds it
      right after `tail`. */
  lemma HostShape(tail: string, id: string)
    requires IsVideoId(id)
    requires AfterHost(Scheme + Host + tail + id, 24) == Some(24 + |tail|)
    ensures ExtractVideoId(Scheme + Host + tail + id) == Some(id)
  {
    var s := Scheme + Host + tail + id;
    Layout(Scheme, Host, tail, id);
    assert HasAt(s, 12, Host);
    assert 'y' !in Scheme;
    SkipPrefix(s, 12);
    IdTail(Scheme + Host + tail, id);
  }

  lemma WatchShape(id: string)
    requires IsVideoId(id)
    ensures ExtractVideoId(WatchPrefix + id) == Some(id)
  {
    Layout(Scheme, Host, "watch?v=", id);
    QueryAfterHost(WatchPrefix + id, 24, id);
    HostShape("watch?v=", id);
  }

  lemma EmbedShape(id: string)
    requires IsVideoId(id)
    ensures ExtractVideoId(EmbedPrefix + id) == Some(id)
  {
    Layout(Scheme, Host, "embed/", id);
    EmbedAfterHost(EmbedPrefix + id, 24, id);
    HostShape("embed/", id);
  }

  lemma VShape(id: string)
    requires IsVideoId(id)
    ensures ExtractVideoId(VPrefix + id) == Some(id)
  {
    Layout(Scheme, Host, "v/", id);
    VAfterHost(VPrefix + id, 24, id);
    HostShape("v/", id);
  }

  lemma EShape(id: string)
    requires IsVideoId(id)
    ensures ExtractVideoId(EPrefix + id) == Some(id)
  {
    Layout(Scheme, Host, "e/", id);
    EAfterHost(EPrefix + id, 24, id);
    HostShape("e/", id);
  }

  /** `https://youtu.be/<id>`: `youtube.com/` is not there (the sixth
      letter differs), `youtu.be/` is. */
  lemma ShortShape(id: string)
    requires IsVideoId(id)
    ensures ExtractVideoId(ShortPrefix + id) == Some(id)
  {
    var s := ShortPrefix + id;
    assert s[..8] == "https://" && s[8..17] == "youtu.be/";
    assert 'y' !in "https://";
    assert s[13] == '.';
    NotAt(s, 8, Host, 5);
    IdTail(ShortPrefix, id);
    assert MatchAt(s, 8) == Some(17);
    SkipPrefix(s, 8);
  }

  /** The five URL shapes that carry the same id all yield that id. */
  lemma FiveShapesAgree(id: string)
    requires IsVideoId(id)
    ensures ExtractVideoId(WatchPrefix + id) == Some(id)
    ensures ExtractVideoId(ShortPrefix + id) == Some(id)
    ensures ExtractVideoId(EmbedPrefix + id) == Some(id)
    ensures ExtractVideoId(VPrefix + id) == Some(id)
    ensures ExtractVideoId(EPrefix + id) == Some(id)
  {
    WatchShape(id);
    ShortShape(id);
    EmbedShape(id);
    VShape(id);
    EShape(id);
  }

  // ---------------------------------------------------------------------
  // get_video_title and /get-transcript

  /** One entry of `response["items"]`: `title` is
      `item["snippet"]["title"]`, or `None` when a key is missing. */
  datatype VideoItem = VideoItem(title: Option<string>)

  /** The decoded reply of the videos endpoint: `items` is `None` when the
      key is absent. */
  datatype VideoMetadata = VideoMetadata(items: Option<seq<VideoItem>>)

  /** One entry of the transcript list; only its `text` is used. */
  datatype TranscriptEntry = TranscriptEntry(text: string)

  /** What `/get-transcript` answers: the JSON body, or the `HTTPException`. */
  datatype TranscriptReply =
    | Found(url: string, title: string, transcript: string)
    | Failed(status: int, detail: string)

  const UnknownTitle: string := "Unknown Title"
  const InvalidUrl: string := "Invalid YouTube URL"
  const Unavailable: string := "Transcript not available"

  /** `get_video_title`: the first item's title, the fallback when `items`
      is absent or empty, or what the request, the decoding or a missing
      key raises. */
  function VideoTitle(metadata: Fetch<VideoMetadata>): (r: Fetch<string>)
    ensures metadata.Raised? ==> r.Raised?
    ensures metadata.Got? && (metadata.value.items.None? || metadata.value.items.value == [])
      ==> r == Got(UnknownTitle)
    ensures metadata.Got? && metadata.value.items.Some? && metadata.value.items.value != []
      ==> match metadata.value.items.value[0].title
          case Some(t) => r == Got(t)
          case None => r.Raised?
  {
    match metadata
    case Raised(message) => Raised(message)
    case Got(reply) =>
      if reply.items.Some? && |reply.items.value| > 0 then
        match reply.items.value[0].title
        case Some(t) => Got(t)
        case None => Raised("KeyError")
      else Got(UnknownTitle)
  }

  function Texts(entries: seq<TranscriptEntry>): (ts: seq<string>)
    ensures |ts| == |entries| && forall k :: 0 <= k < |ts| ==> ts[k] == entries[k].text
  {
    seq(|entries|, k requires 0 <= k < |entries| => entries[k].text)
  }

  /** `get_youtube_transcript`. `metadata` and `transcript` are what the
      title request and the transcript library give for the extracted id;
      the title is fetched first, and either failing gives the same 500. */
  function GetYoutubeTranscript(videoUrl: string, metadata: Fetch<VideoMetadata>, transcript: Fetch<seq<TranscriptEntry>>): (r: TranscriptReply)
    ensures r.Failed? ==> r.status == 400 || r.status == 500
    ensures r == Failed(400, InvalidUrl) <==> ExtractVideoId(videoUrl).None?
    ensures r == Failed(500, Unavailable) <==>
      ExtractVideoId(videoUrl).Some? && (VideoTitle(metadata).Raised? || transcript.Raised?)
    ensures r.Found? ==> r.url == videoUrl && r.title == VideoTitle(metadata).value
  {
    match ExtractVideoId(videoUrl)
    case None => Failed(400, InvalidUrl)
    case Some(_) =>
      match VideoTitle(metadata)
      case Raised(_) => Failed(500, Unavailable)
      case Got(title) =>
        match transcript
        case Raised(_) => Failed(500, Unavailable)
        case Got(entries) => Found(videoUrl, title, Join(Texts(entries)))
  }

  /** An URL without an id is rejected whatever the two services would have
      answered: neither is consulted. */
  lemma InvalidUrlIgnoresServices(videoUrl: string, m1: Fetch<VideoMetadata>, t1: Fetch<seq<TranscriptEntry>>,
                                  m2: Fetch<VideoMetadata>, t2: Fetch<seq<TranscriptEntry>>)
    requires ExtractVideoId(videoUrl).None?
    ensures GetYoutubeTranscript(videoUrl, m1, t1) == GetYoutubeTranscript(videoUrl, m2, t2) == Failed(400, InvalidUrl)
  {
  }

  /** The transcript text is the entries' texts in order, each followed by
      a single space except the last; for `n > 0` entries its length is the
      sum of their lengths plus `n - 1`, and it is empty for none. */
  lemma TranscriptLayout(videoUrl: string, metadata: Fetch<VideoMetadata>, entries: seq<TranscriptEntry>)
    requires GetYoutubeTranscript(videoUrl, metadata, Got(entries)).Found?
    ensures var text := GetYoutubeTranscript(videoUrl, metadata, Got(entries)).transcript;
      && (|entries| == 0 ==> text == "")
      && (|entries| > 0 ==> |text| == SumLen(Texts(entries)) + |entries| - 1)
      && forall k :: 0 <= k < |entries| ==>
           var o := Offset(Texts(entries), k);
           && o + |entries[k].text| <= |text|
           && text[o..o + |entries[k].text|] == entries[k].text
           && (k + 1 < |entries| ==> o + |entries[k].text| < |text| && text[o + |entries[k].text|] == ' ')
  {
    var ts := Texts(entries);
    if |entries| > 0 {
      JoinLength(ts);
    }
    forall k | 0 <= k < |entries|
      ensures var o := Offset(ts, k);
        && o + |entries[k].text| <= |Join(ts)|
        && Join(ts)[o..o + |entries[k].text|] == entries[k].text
        && (k + 1 < |entries| ==> o + |entries[k].text| < |Join(ts)| && Join(ts)[o + |entries[k].text|] == ' ')
    {
      JoinPiece(ts, k);
    }
  }
}
