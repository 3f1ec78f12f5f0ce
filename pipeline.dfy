/**
 * The deterministic part of `run_pipeline`: the run inputs handed to the crew
 * (notably the report title) and the update of the research task,
 * whose description gets the context block prepended on every run.
 */
module Pipeline {
  import opened PyStr
  import opened Lookups
  import opened Context

  /** `ddg_links` is called with `max_results=5`. */
  const QuickLinkCount := 5

  /** The instructions the research task is created with. */
  const ResearchTemplate :=
    "Use the provided external snippets and links to compile facts about the topic: '{topic}'. "
    + "Return:\n"
    + "1) 5-7 bullet points of key facts (<= 120 words total)\n"
    + "2) A short risks/limitations note (<= 40 words)\n"
    + "3) A list of 5 sources as markdown list [title](url)\n"
    + "Be concise and specific. No repetition."

  const ContextHeader := "CONTEXT (external snippets & links):\n"

  /** The inputs the crew is kicked off with; `date` is the caller's clock reading. */
  datatype Inputs = Inputs(topic: string, title: string, date: string, context: string)

  /** What the crew kickoff produced: the text of its result, or the message of the exception it raised. */
  datatype Outcome = Success(text: string) | Failure(message: string)

  predicate IsDot(c: char)
  {
    c == '.'
  }

  /**
   * `topic.strip().rstrip(".")`: the stripped topic without its run of
   * trailing periods.
   */
  function Title(topic: string): (r: string)
    ensures r <= Strip(topic)
    ensures r == [] || r[|r| - 1] != '.'
    ensures forall i :: |r| <= i < |Strip(topic)| ==> Strip(topic)[i] == '.'
  {
    RStrip(Strip(topic), IsDot)
  }

  /**
   * Taking the title of a title changes nothing exactly when the title is
   * empty or does not end in whitespace (periods after a space leave the
   * space behind, and the second strip removes it).
   */
  lemma TitleIdempotentIff(topic: string)
    ensures var t := Title(topic);
      Title(t) == t <==> (t == [] || !IsSpace(t[|t| - 1]))
  {
    var t := Title(topic);
    if t == [] || !IsSpace(t[|t| - 1]) {
      assert t == [] || t[0] == Strip(topic)[0];
      StripTrimmed(t);
      assert RStrip(t, IsDot) == t;
    } else {
      assert Strip(t) != t;
    }
  }

  /** A concrete input on which the title is not idempotent: `"a ."` has title `"a "`, whose title is `"a"`. */
  lemma TitleNotIdempotent()
    ensures Title("a .") == "a "
    ensures Title(Title("a .")) == "a"
  {
    TitleOfSpacedDot();
    TitleOfTrailingSpace();
  }

  lemma TitleOfSpacedDot()
    ensures Title("a .") == "a "
  {
    var s := "a .";
    assert s[0] == 'a' && s[1] == ' ' && s[2] == '.';
    StripTrimmed(s);
    assert Title(s) == RStrip(s, IsDot);
    RStripAt(s, IsDot, 2);
    assert s[..2] == "a ";
  }

  lemma TitleOfTrailingSpace()
    ensures Title("a ") == "a"
  {
    var t := "a ";
    assert LStrip(t, IsSpace) == t;
    RStripAt(t, IsSpace, 1);
    assert t[..1] == "a";
    RStripAt("a", IsDot, 1);
  }

  /** The text put in front of the research task's description on each run. */
  function ContextPrefix(context: string): (r: string)
    ensures |r| == |ContextHeader| + |context| + 2
    ensures r[..|ContextHeader|] == ContextHeader
    ensures r[|ContextHeader|..|ContextHeader| + |context|] == context
    ensures r[|r| - 2..] == "\n\n"
  {
    ContextHeader + context + "\n\n"
  }

  /**
   * The new description after one run: it starts with the context header,
   * carries the context verbatim, and keeps the old description as a suffix.
   */
  function PrependContext(description: string, context: string): (r: string)
    ensures |r| == |ContextHeader| + |context| + 2 + |description|
    ensures r[..|ContextHeader|] == ContextHeader
    ensures r[|ContextHeader|..|ContextHeader| + |context|] == context
    ensures r[|ContextHeader| + |context|..|ContextHeader| + |context| + 2] == "\n\n"
    ensures r[|r| - |description|..] == description
  {
    ContextPrefix(context) + description
  }

  /** The description after runs with the given contexts, oldest first. */
  function AfterRuns(description: string, contexts: seq<string>): string
    decreases |contexts|
  {
    if contexts == [] then description
    else AfterRuns(PrependContext(description, contexts[0]), contexts[1..])
  }

  /** The prefixes of the given runs, newest first. */
  function StackedPrefixes(contexts: seq<string>): string
    decreases |contexts|
  {
    if contexts == [] then "" else StackedPrefixes(contexts[1..]) + ContextPrefix(contexts[0])
  }

  /**
   * Calling `run_pipeline` n times on one task object stacks the prefixes:
   * the description becomes the n context prefixes, newest first, followed
   * by the original description. The page itself never does this, since each
   * rerun of its script builds a fresh task and runs the pipeline at most once.
   */
  lemma {:induction false} AfterRunsStacks(description: string, contexts: seq<string>)
    ensures AfterRuns(description, contexts) == StackedPrefixes(contexts) + description
    decreases |contexts|
  {
    if contexts != [] {
      AfterRunsStacks(PrependContext(description, contexts[0]), contexts[1..]);
    }
  }

  /** The context block of a run on `topic`, from the two lookups' responses. */
  function RunContext(topic: string, wikiResp: WikiResponse, searchResp: SearchResponse): string
  {
    ContextBlock(WikiSummary(topic, wikiResp), SearchLinks(searchResp, QuickLinkCount))
  }

  /** The inputs of a run on `topic`. */
  function RunInputs(topic: string, date: string, wikiResp: WikiResponse, searchResp: SearchResponse): (inputs: Inputs)
    ensures inputs.topic == topic && inputs.date == date
    ensures inputs.title == Title(topic)
    ensures inputs.title <= Strip(topic) && (inputs.title == [] || inputs.title[|inputs.title| - 1] != '.')
    ensures inputs.context == RunContext(topic, wikiResp, searchResp)
  {
    Inputs(topic, Title(topic), date, RunContext(topic, wikiResp, searchResp))
  }

  /**
   * The research task, built from its template each time the page script
   * runs; the pipeline rewrites its description in place.
   */
  class ResearchTask {
    var description: string

    constructor ()
      ensures description == ResearchTemplate
    {
      description := ResearchTemplate;
    }

    /**
     * `run_pipeline`: look up, build the context block and inputs, prepend
     * the context to this task's description, then kick off the crew, which
     * sees the updated description. The update stays in place whatever the
     * kickoff does.
     */
    method RunPipeline(userTopic: string, wikiResp: WikiResponse, searchResp: SearchResponse,
                       date: string, kickoff: (Inputs, string) -> Outcome)
      returns (result: Outcome)
      modifies this
      ensures description == PrependContext(old(description), RunContext(userTopic, wikiResp, searchResp))
      ensures result == kickoff(RunInputs(userTopic, date, wikiResp, searchResp), description)
    {
      var wiki := WikiSummary(userTopic, wikiResp);
      var links := DdgLinks(searchResp, QuickLinkCount);
      var contextText := ContextBlock(wiki, links);
      var inputs := Inputs(userTopic, Title(userTopic), date, contextText);
      description := ContextHeader + contextText + "\n\n" + description;
      result := kickoff(inputs, description);
    }
  }
}
