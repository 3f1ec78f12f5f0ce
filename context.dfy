/**
 * The compact context block `run_pipeline` builds from the two lookups: a
 * summary excerpt, the canonical URL (or a placeholder) and the quick links
 * (or a placeholder), one segment per line.
 */
module Context {
  import opened PyStr
  import opened Lookups

  /** The summary is cut to this many characters to bound the prompt. */
  const MaxSummaryChars: nat := 800

  const Placeholder := "N/A"

  /** The Python slice `summary[:800]`: the longest prefix of at most 800 characters. */
  function Excerpt(summary: string): (r: string)
    ensures r <= summary
    ensures |r| <= MaxSummaryChars
    ensures |r| == MaxSummaryChars || r == summary
  {
    summary[..SliceStop(|summary|, MaxSummaryChars)]
  }

  /** The encyclopedia segment carries exactly the first `min(800, |summary|)` characters. */
  function WikiSegment(summary: string): (r: string)
    ensures |r| >= 11 && r[..11] == "WIKIPEDIA: "
    ensures |r| - 11 == if |summary| < MaxSummaryChars then |summary| else MaxSummaryChars
    ensures r[11..] <= summary
  {
    "WIKIPEDIA: " + Excerpt(summary)
  }

  /** The URL segment: the URL verbatim, or the placeholder when there is none. */
  function UrlSegment(url: string): (r: string)
    ensures |r| >= 10 && r[..10] == "WIKI_URL: "
    ensures url == "" ==> r[10..] == Placeholder
    ensures url != "" ==> r[10..] == url
  {
    "WIKI_URL: " + (if url == "" then Placeholder else url)
  }

  /** One quick link rendered as `- title: url`. */
  function LinkLine(l: Link): (r: string)
    ensures |r| == 4 + |l.title| + |l.url|
    ensures r[..2] == "- " && r[2..2 + |l.title|] == l.title
    ensures r[2 + |l.title|..4 + |l.title|] == ": " && r[4 + |l.title|..] == l.url
    ensures '\n' in r <==> '\n' in l.title || '\n' in l.url
  {
    "- " + l.title + ": " + l.url
  }

  function LinkLines(links: seq<Link>): (lines: seq<string>)
    ensures |lines| == |links|
    ensures forall k :: 0 <= k < |links| ==> lines[k] == LinkLine(links[k])
  {
    seq(|links|, k requires 0 <= k < |links| => LinkLine(links[k]))
  }

  /**
   * The links segment: the placeholder exactly when there are no links,
   * otherwise a `QUICK_LINKS:` header line followed by the link lines.
   */
  function LinksSegment(links: seq<Link>): (r: string)
    ensures r == "QUICK_LINKS: N/A" <==> links == []
    ensures links != [] ==> |r| >= 13 && r[..13] == "QUICK_LINKS:\n"
  {
    if links == [] then "QUICK_LINKS: " + Placeholder
    else "QUICK_LINKS:\n" + Join(LinkLines(links), "\n")
  }

  /**
   * The context block: the three segments joined by newlines, that is, the
   * encyclopedia segment, the URL segment and the links segment with one
   * newline between each two.
   */
  function ContextBlock(wiki: WikiRecord, links: seq<Link>): (r: string)
    ensures r == WikiSegment(wiki.summary) + "\n" + UrlSegment(wiki.url) + "\n" + LinksSegment(links)
  {
    var w, u, l := WikiSegment(wiki.summary), UrlSegment(wiki.url), LinksSegment(links);
    JoinCons(u, [l], "\n");
    assert [w, u, l] == [w] + [u, l];
    JoinCons(w, [u, l], "\n");
    Join([w, u, l], "\n")
  }

  /**
   * The URL segment shows the URL verbatim when there is one and the
   * placeholder when there is none; the two can only be confused for the
   * URL `N/A` itself.
   */
  lemma UrlSegmentPlaceholder(url: string)
    ensures url != Placeholder ==> (UrlSegment(url) == "WIKI_URL: N/A" <==> url == "")
    ensures url != "" ==> UrlSegment(url)[10..] == url
  {
    if url != "" {
      assert UrlSegment(url)[10..] == url;
    }
  }

  predicate NoNewline(s: string)
  {
    '\n' !in s
  }

  /** The rendered link lines inherit the absence of newlines from the links. */
  lemma LinkLinesNoNewline(links: seq<Link>)
    requires forall k :: 0 <= k < |links| ==> NoNewline(links[k].title) && NoNewline(links[k].url)
    ensures forall k :: 0 <= k < |links| ==> NoNewline(LinkLines(links)[k])
  {
  }

  /** The lines of the links segment: the placeholder, or the header and one line per link. */
  function LinksLineList(links: seq<Link>): seq<string>
  {
    if links == [] then ["QUICK_LINKS: N/A"] else ["QUICK_LINKS:"] + LinkLines(links)
  }

  /** The lines the context block consists of, before they are joined. */
  function ContextLineList(wiki: WikiRecord, links: seq<Link>): seq<string>
  {
    [WikiSegment(wiki.summary), UrlSegment(wiki.url)] + LinksLineList(links)
  }

  /** The two fixed segments hold no newline when the summary and the URL hold none. */
  lemma SegmentsNoNewline(wiki: WikiRecord)
    requires NoNewline(wiki.summary) && NoNewline(wiki.url)
    ensures NoNewline(WikiSegment(wiki.summary)) && NoNewline(UrlSegment(wiki.url))
  {
    assert Excerpt(wiki.summary) <= wiki.summary;
    assert WikiSegment(wiki.summary) == "WIKIPEDIA: " + Excerpt(wiki.summary);
    assert UrlSegment(wiki.url) == "WIKI_URL: " + (if wiki.url == "" then Placeholder else wiki.url);
  }

  /** The lines of the links segment hold no newline when no link field does. */
  lemma LinksLineListNoNewline(links: seq<Link>)
    requires forall k :: 0 <= k < |links| ==> NoNewline(links[k].title) && NoNewline(links[k].url)
    ensures forall k :: 0 <= k < |LinksLineList(links)| ==> NoNewline(LinksLineList(links)[k])
  {
    var tail := LinksLineList(links);
    LinkLinesNoNewline(links);
    forall k | 0 < k < |tail|
      ensures NoNewline(tail[k])
    {
      assert tail[k] == LinkLines(links)[k - 1];
    }
  }

  /** No line of the block holds a newline when no field does. */
  lemma LineListNoNewline(wiki: WikiRecord, links: seq<Link>)
    requires NoNewline(wiki.summary) && NoNewline(wiki.url)
    requires forall k :: 0 <= k < |links| ==> NoNewline(links[k].title) && NoNewline(links[k].url)
    ensures forall k :: 0 <= k < |ContextLineList(wiki, links)| ==> NoNewline(ContextLineList(wiki, links)[k])
  {
    SegmentsNoNewline(wiki);
    LinksLineListNoNewline(links);
    var tail := LinksLineList(links);
    var lines := ContextLineList(wiki, links);
    forall k | 2 <= k < |lines|
      ensures NoNewline(lines[k])
    {
      assert lines[k] == tail[k - 2];
    }
  }

  /** The links segment is the newline join of its own lines. */
  lemma LinksSegmentJoin(links: seq<Link>)
    ensures LinksSegment(links) == Join(LinksLineList(links), "\n")
  {
    if links != [] {
      JoinCons("QUICK_LINKS:", LinkLines(links), "\n");
    }
  }

  /** The links segment is itself a join of its lines, so the block joins all lines at once. */
  lemma ContextBlockJoin(wiki: WikiRecord, links: seq<Link>)
    ensures ContextBlock(wiki, links) == Join(ContextLineList(wiki, links), "\n")
  {
    var w, u := WikiSegment(wiki.summary), UrlSegment(wiki.url);
    var tail := LinksLineList(links);
    LinksSegmentJoin(links);
    JoinCons(u, tail, "\n");
    assert [w, u] + tail == [w] + ([u] + tail);
    JoinCons(w, [u] + tail, "\n");
  }

  /**
   * When no field carries a newline of its own, the lines of the context
   * block are exactly: the encyclopedia segment, the URL segment, then either
   * the links placeholder or a `QUICK_LINKS:` header followed by one
   * `- title: url` line per link, in order.
   */
  lemma ContextLines(wiki: WikiRecord, links: seq<Link>)
    requires NoNewline(wiki.summary) && NoNewline(wiki.url)
    requires forall k :: 0 <= k < |links| ==> NoNewline(links[k].title) && NoNewline(links[k].url)
    ensures Split(ContextBlock(wiki, links), '\n')
         == [WikiSegment(wiki.summary), UrlSegment(wiki.url)]
            + (if links == [] then ["QUICK_LINKS: N/A"] else ["QUICK_LINKS:"] + LinkLines(links))
  {
    LineListNoNewline(wiki, links);
    ContextBlockJoin(wiki, links);
    SplitJoin(ContextLineList(wiki, links), '\n');
  }
}
