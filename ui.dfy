/**
 * The page's run action: the gate on the button and topic, and the session
 * slot `final_report_md` that keeps the last report across reruns.
 */
module Ui {
  import opened PyStr
  import opened Lookups
  import opened Pipeline

  /**
   * `run_btn and topic.strip()`: the pipeline runs only when the button was
   * pressed and the topic has a non-whitespace character.
   */
  function ShouldRun(runBtn: bool, topic: string): (r: bool)
    ensures r <==> runBtn && exists i :: 0 <= i < |topic| && !IsSpace(topic[i])
  {
    StripEmpty(topic);
    runBtn && Strip(topic) != ""
  }

  /** The per-browser-session state the page keeps between reruns. */
  class Session {
    var finalReportMd: string

    /** The report shown is always stored stripped. */
    ghost predicate Valid()
      reads this
    {
      finalReportMd == Strip(finalReportMd)
    }

    /** The session state as first created: an empty report slot. */
    constructor ()
      ensures Valid() && finalReportMd == ""
    {
      finalReportMd := "";
    }

    /**
     * One rerun of the page script after an interaction. The script builds
     * the research task afresh from its template on every rerun, and only
     * the session slot survives between reruns. When the gate is open the
     * pipeline runs once on the stripped topic, so the crew sees the
     * template with exactly one context prefix. A successful result is
     * stored stripped; a failure leaves the slot as it was and shows
     * `Error: <message>`.
     */
    method OnRun(runBtn: bool, topic: string,
                 wikiResp: WikiResponse, searchResp: SearchResponse,
                 date: string, kickoff: (Inputs, string) -> Outcome)
      returns (invoked: bool, error: Option<string>)
      requires Valid()
      modifies this
      ensures Valid()
      ensures invoked == ShouldRun(runBtn, topic)
      ensures !invoked ==> finalReportMd == old(finalReportMd) && error == None
      ensures invoked ==>
        match kickoff(RunInputs(Strip(topic), date, wikiResp, searchResp),
                      PrependContext(ResearchTemplate, RunContext(Strip(topic), wikiResp, searchResp)))
        case Success(text) => finalReportMd == Strip(text) && error == None
        case Failure(message) => finalReportMd == old(finalReportMd) && error == Some("Error: " + message)
    {
      var task := new ResearchTask();
      var stripped := Strip(topic);
      invoked := runBtn && stripped != "";
      error := None;
      if invoked {
        var outcome := task.RunPipeline(stripped, wikiResp, searchResp, date, kickoff);
        assert outcome == kickoff(RunInputs(stripped, date, wikiResp, searchResp),
                                  PrependContext(ResearchTemplate, RunContext(stripped, wikiResp, searchResp)));
        error := Record(outcome);
      }
    }

    /** Stores a successful run's result stripped; a failure only yields the message shown. */
    method Record(outcome: Outcome) returns (error: Option<string>)
      requires Valid()
      modifies this
      ensures Valid()
      ensures match outcome
        case Success(text) => finalReportMd == Strip(text) && error == None
        case Failure(message) => finalReportMd == old(finalReportMd) && error == Some("Error: " + message)
    {
      match outcome
      case Success(text) =>
        finalReportMd := Strip(text);
        StripIdempotent(text);
        error := None;
      case Failure(message) =>
        error := Some("Error: " + message);
    }
  }
}
