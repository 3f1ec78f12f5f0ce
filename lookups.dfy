/**
 * The two best-effort external lookups of the research agent, from the point
 * where the HTTP response is in hand: the encyclopedia page summary
 * (`wiki_summary`) and the search-result links (`ddg_links`). The request
 * itself, JSON decoding and HTML parsing are abstracted into the response
 * datatypes below.
 */
module Lookups {
  import opened PyStr

  datatype Option<T> = None | Some(value: T)
  {
    function GetOr(default: T): T
    {
      match this
      case Some(v) => v
      case None => default
    }
  }

  // ---------------------------------------------------------------------------
  // Encyclopedia summary
  // ---------------------------------------------------------------------------

  /**
   * A JSON member that the lookup reads with `.get(key, {})` and then calls
   * `.get` on: absent, a JSON object, or some other JSON value (on which the
   * second `.get` raises).
   */
  datatype Nested<T> = Missing | Object(fields: T) | NotObject

  /** The `desktop` object of `content_urls`; only its `page` string is read. */
  datatype DesktopUrls = DesktopUrls(page: Option<string>)

  /** The `content_urls` object of the page summary; only `desktop` is read. */
  datatype ContentUrls = ContentUrls(desktop: Nested<DesktopUrls>)

  /** The members of the decoded page-summary JSON object that the lookup reads. */
  datatype PageSummary = PageSummary(title: Option<string>, extract: Option<string>, contentUrls: Nested<ContentUrls>)

  /**
   * What the GET for the page summary produced: the request raised, or an HTTP
   * status with a body that decoded to a JSON object (`Some`) or did not (`None`:
   * `r.json()` raised, or the top-level value had no `.get`).
   */
  datatype WikiResponse = WikiRaised | WikiHttp(status: int, body: Option<PageSummary>)

  /** The record `wiki_summary` returns. */
  datatype WikiRecord = WikiRecord(title: string, summary: string, url: string)

  /** The record returned on any failure: the topic as title, everything else empty. */
  function WikiFallback(topic: string): WikiRecord
  {
    WikiRecord(topic, "", "")
  }

  /** The page summary of a successful (status 200, JSON object) response, if any. */
  function SummaryOk(resp: WikiResponse): Option<PageSummary>
  {
    if resp.WikiHttp? && resp.status == 200 then resp.body else None
  }

  /**
   * `content_urls.desktop.page`, each missing level defaulting to empty;
   * `None` when a level is present but not an object, so that `.get` raises.
   */
  function CanonicalUrl(urls: Nested<ContentUrls>): (r: Option<string>)
    ensures r.None? <==> urls.NotObject? || (urls.Object? && urls.fields.desktop.NotObject?)
    ensures r.Some? && r.value != "" ==>
      urls.Object? && urls.fields.desktop.Object? && urls.fields.desktop.fields.page == Some(r.value)
  {
    match urls
    case Missing => Some("")
    case NotObject => None
    case Object(c) =>
      match c.desktop
      case Missing => Some("")
      case NotObject => None
      case Object(d) => Some(d.page.GetOr(""))
  }

  /**
   * The post-response logic of `wiki_summary`. Every field of the record comes
   * either from a successful response or from its default (topic, empty,
   * empty), and any failure gives the fallback record.
   */
  function WikiSummary(topic: string, resp: WikiResponse): (r: WikiRecord)
    ensures SummaryOk(resp).None? ==> r == WikiFallback(topic)
    ensures r.title == topic || (SummaryOk(resp).Some? && SummaryOk(resp).value.title == Some(r.title))
    ensures r.summary == "" || (SummaryOk(resp).Some? && SummaryOk(resp).value.extract == Some(r.summary))
    ensures r.url == "" || (SummaryOk(resp).Some? && CanonicalUrl(SummaryOk(resp).value.contentUrls) == Some(r.url))
    ensures SummaryOk(resp).Some? && CanonicalUrl(SummaryOk(resp).value.contentUrls).None? ==> r == WikiFallback(topic)
  {
    match SummaryOk(resp)
    case None => WikiFallback(topic)
    case Some(page) =>
      match CanonicalUrl(page.contentUrls)
      case None => WikiFallback(topic)
      case Some(url) => WikiRecord(page.title.GetOr(topic), page.extract.GetOr(""), url)
  }

  /**
   * On a successful response whose nested URL objects are well formed, each
   * field takes its default independently of the others.
   */
  lemma WikiFieldDefaults(topic: string, page: PageSummary)
    requires !page.contentUrls.NotObject?
    requires page.contentUrls.Object? ==> !page.contentUrls.fields.desktop.NotObject?
    ensures var r := WikiSummary(topic, WikiHttp(200, Some(page)));
      && (r.title == if page.title.Some? then page.title.value else topic)
      && (r.summary == if page.extract.Some? then page.extract.value else "")
      && (r.url == if page.contentUrls.Object? && page.contentUrls.fields.desktop.Object?
                   then page.contentUrls.fields.desktop.fields.page.GetOr("") else "")
  {
  }

  /** A `content_urls` or `desktop` member that is not an object makes the whole lookup fall back. */
  lemma WikiMalformedUrls(topic: string, page: PageSummary)
    requires page.contentUrls.NotObject? || (page.contentUrls.Object? && page.contentUrls.fields.desktop.NotObject?)
    ensures WikiSummary(topic, WikiHttp(200, Some(page))) == WikiFallback(topic)
  {
  }

  // ---------------------------------------------------------------------------
  // Search-result links
  // ---------------------------------------------------------------------------

  /**
   * One `a.result__a` anchor of the result page: its `href` attribute (empty
   * when absent) and its visible text as the HTML parser renders it.
   */
  datatype Anchor = Anchor(href: string, text: string)

  /** A quick link as `ddg_links` returns it. */
  datatype Link = Link(title: string, url: string)

  /** What the POST for the search page produced: raised, or a status and the anchors found. */
  datatype SearchResponse = SearchRaised | SearchHttp(status: int, anchors: seq<Anchor>)

  /** `if href and text`: an anchor is kept when both are non-empty. */
  predicate Kept(a: Anchor)
  {
    a.href != "" && a.text != ""
  }

  function LinkOf(a: Anchor): Link
  {
    Link(a.text, a.href)
  }

  /** The links of the kept anchors of `s`, in order. */
  function KeptLinks(s: seq<Anchor>): (r: seq<Link>)
    ensures |r| <= |s|
    ensures forall k :: 0 <= k < |r| ==> r[k].title != "" && r[k].url != ""
  {
    if s == [] then []
    else
      var last := s[|s| - 1];
      KeptLinks(s[..|s| - 1]) + (if Kept(last) then [LinkOf(last)] else [])
  }

  /** The anchors `ddg_links` looks at: the Python slice `anchors[:maxResults]`. */
  function Window(anchors: seq<Anchor>, maxResults: int): (w: seq<Anchor>)
    ensures w <= anchors
    ensures 0 <= maxResults ==> |w| <= maxResults
    ensures 0 <= maxResults ==> |w| == |anchors| || |w| == maxResults
    ensures maxResults < 0 ==> |w| == |anchors| + maxResults || (w == [] && |anchors| <= -maxResults)
  {
    anchors[..SliceStop(|anchors|, maxResults)]
  }

  /**
   * What `ddg_links` returns: the kept anchors of the window on a 200
   * response, otherwise nothing. The result is bounded by `maxResults` (when
   * non-negative) and by the number of anchors, and carries only non-empty
   * titles and URLs.
   */
  function SearchLinks(resp: SearchResponse, maxResults: int): (r: seq<Link>)
    ensures 0 <= maxResults ==> |r| <= maxResults
    ensures resp.SearchHttp? ==> |r| <= |resp.anchors|
    ensures forall k :: 0 <= k < |r| ==> r[k].title != "" && r[k].url != ""
    ensures !(resp.SearchHttp? && resp.status == 200) ==> r == []
  {
    if resp.SearchHttp? && resp.status == 200 then KeptLinks(Window(resp.anchors, maxResults)) else []
  }

  /** The loop of `ddg_links` over the window of anchors. */
  method DdgLinks(resp: SearchResponse, maxResults: int) returns (results: seq<Link>)
    ensures results == SearchLinks(resp, maxResults)
  {
    results := [];
    if resp.SearchHttp? && resp.status == 200 {
      var window := Window(resp.anchors, maxResults);
      for i := 0 to |window|
        invariant results == KeptLinks(window[..i])
      {
        var a := window[i];
        if a.href != "" && a.text != "" {
          results := results + [Link(a.text, a.href)];
        }
        assert window[..i + 1][..i] == window[..i];
      }
      assert window[..|window|] == window;
    }
  }

  /** Keeping distributes over concatenation: each anchor is judged on its own, in place. */
  lemma {:induction false} KeptLinksAppend(s: seq<Anchor>, t: seq<Anchor>)
    ensures KeptLinks(s + t) == KeptLinks(s) + KeptLinks(t)
    decreases |t|
  {
    if t != [] {
      var t' := t[..|t| - 1];
      assert (s + t)[..|s + t| - 1] == s + t';
      KeptLinksAppend(s, t');
    } else {
      assert s + t == s;
    }
  }

  /** A link is returned exactly when some kept anchor yields it. */
  lemma {:induction false} KeptLinksMember(s: seq<Anchor>, l: Link)
    ensures l in KeptLinks(s) <==> exists i :: 0 <= i < |s| && Kept(s[i]) && LinkOf(s[i]) == l
  {
    if s != [] {
      var init := s[..|s| - 1];
      KeptLinksMember(init, l);
      if exists i :: 0 <= i < |init| && Kept(init[i]) && LinkOf(init[i]) == l {
        var i :| 0 <= i < |init| && Kept(init[i]) && LinkOf(init[i]) == l;
        assert s[i] == init[i];
      }
      if exists i :: 0 <= i < |s| && Kept(s[i]) && LinkOf(s[i]) == l {
        var i :| 0 <= i < |s| && Kept(s[i]) && LinkOf(s[i]) == l;
        if i < |init| { assert init[i] == s[i]; }
      }
    }
  }

  /** One link per kept anchor: the count equals the number of kept anchors. */
  lemma {:induction false} KeptLinksCount(s: seq<Anchor>)
    ensures |KeptLinks(s)| == |set i | 0 <= i < |s| && Kept(s[i])|
  {
    if s != [] {
      var init := s[..|s| - 1];
      KeptLinksCount(init);
      var below := set i | 0 <= i < |init| && Kept(init[i]);
      var all := set i | 0 <= i < |s| && Kept(s[i]);
      if Kept(s[|s| - 1]) {
        assert all == below + {|s| - 1};
      } else {
        assert all == below;
      }
    }
  }
}
