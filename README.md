# Research agent: verified model of the lookup, context and run logic

The research agent is a Streamlit page that takes a topic and gathers two
cheap external facts: an encyclopedia page summary and a handful of
search-result links. It folds them into a compact context block, prepends
that block to the research task's instructions, and kicks off a
three-agent language-model crew. Streamlit re-executes the page script from
the top on every interaction, so the crew and its tasks are rebuilt each
time; only the last report survives, in the page's session state.

This project models the deterministic core of `agent.py` in Dafny:

- `pystr.dfy` (module `PyStr`): the Python string operations the code uses,
  written out. These are `str.isspace`, `lstrip`/`rstrip`/`strip`,
  `sep.join`, `split` (as the inverse of `join`) and the length of a
  `[:stop]` slice, including a negative `stop`.
- `lookups.dfy` (module `Lookups`): `wiki_summary` and `ddg_links` from the
  moment a response is in hand. The response is a datatype.
  - The page-summary response is: the request raised, or a status with a
    body that did or did not decode to a JSON object. The object carries
    optional `title` and `extract` and a nested `content_urls.desktop.page`.
    Each nesting level is missing, an object, or not an object.
  - The search response is: raised, or a status and the `(href, text)`
    anchors the HTML parser found.
  - `DdgLinks` is the source's loop, proved equal to the specification
    function `SearchLinks`.
- `context.dfy` (module `Context`): the context block built in
  `run_pipeline`. It holds the summary excerpt of at most 800 characters,
  the URL or `N/A`, and the quick links or `N/A`, joined by newlines.
- `pipeline.dfy` (module `Pipeline`): the report title, the run inputs, and
  the class `ResearchTask`, whose `description` field `RunPipeline` rewrites
  in place. The crew kickoff is a function parameter: it
  receives the inputs and the updated description, and it returns an
  opaque `Success(text) | Failure(message)`.
- `ui.dfy` (module `Ui`): the run gate and the class `Session`. The session
  holds `final_report_md`, which is overwritten only after a successful
  run. Its invariant is that the stored report is always stripped.
  `OnRun` is one rerun of the script: it builds the research task from its
  template, then runs the pipeline at most once.

Behaviour of the code worth noting:

- The quick links are filtered for empty `href` or text AFTER the first
  five anchors are taken, so there can be fewer than
  `min(K, max_results)` links.
- The API-key check only warns, and only for the literal placeholder key.
  The configured empty key passes and nothing refuses to run.
- `run_pipeline` assigns the research task's description in place rather
  than building a new string for the crew. On the page this does not pile
  up: each rerun rebuilds `research_task` from its template and calls
  `run_pipeline` at most once, so every kickoff sees the template with
  exactly one context prefix (`Ui.Session.OnRun`). Only repeated calls of
  `run_pipeline` on one task object, which the page never makes, would
  stack the prefixes (`AfterRunsStacks`).
- The title loses all trailing periods, not one, and only after the
  surrounding whitespace is stripped. So the title is not idempotent and
  may end in whitespace (`TitleNotIdempotent`, `TitleIdempotentIff`).

## Model

| member | source | states |
|---|---|---|
| `PyStr.RStrip` | agent.py:179 | `rstrip(chars)` returns a prefix of its input that does not end in a stripped character, and every character removed is one of them |
| `PyStr.LStrip` | agent.py:179 | `lstrip` returns a suffix that does not start with a stripped character, and every character removed is one of them |
| `PyStr.IsSpaceTable` | agent.py:179 | the whitespace predicate behind `strip()` accepts exactly the 29 code points of Python's `str.isspace` table |
| `PyStr.Strip` | agent.py:179 | `strip()` gives a result no longer than its input that neither starts nor ends with whitespace |
| `PyStr.StripInfix` | agent.py:179 | the result of `strip()` is an infix of its input, and every character cut away on either side is whitespace; with `Strip`'s ensures this fixes the result uniquely |
| `PyStr.StripEmpty` | agent.py:196 | the stripped topic is empty exactly when every character of the topic is whitespace |
| `PyStr.StripIdempotent` | agent.py:200 | stripping the stored report a second time changes nothing |
| `PyStr.Join` | agent.py:172-174 | `"\n".join` of no parts is empty; otherwise it starts with the first part, followed by the separator when there is a second part |
| `PyStr.SplitJoin` | agent.py:174 | splitting on the separator recovers the parts of a `"\n".join` when no part contains a newline |
| `PyStr.JoinSplit` | agent.py:174 | joining the pieces of a split with the separator gives back the original string |
| `Lookups.CanonicalUrl` | agent.py:33 | reading `content_urls.desktop.page` fails exactly when `content_urls` or `desktop` is present but not an object; a non-empty URL is the `page` member itself |
| `Lookups.WikiSummary` | agent.py:24-37 | any failure (raised, non-200, body not an object, and on a 200 object a `content_urls` or `desktop` member that is not an object) gives `{title: topic, summary: "", url: ""}`; each non-default field of the record was read from a successful response |
| `Lookups.WikiFieldDefaults` | agent.py:31-34 | on a 200 response each field defaults on its own: title to the topic, summary to empty, url to empty when any level of `content_urls.desktop.page` is missing |
| `Lookups.WikiMalformedUrls` | agent.py:33-37 | a `content_urls` or `desktop` member that is not an object makes `.get` raise, and the lookup falls back |
| `Lookups.Window` | agent.py:47 | `anchors[:max_results]` is a prefix of the anchors; for a non-negative bound it is all of them or exactly `max_results` of them; a negative bound drops that many anchors from the end |
| `Lookups.KeptLinks` | agent.py:48-51 | no more links than anchors, and every link has a non-empty title and url |
| `Lookups.DdgLinks` | agent.py:39-55 | the loop returns exactly `SearchLinks`: the kept anchors of the window on a 200 response, otherwise `[]` |
| `Lookups.KeptLinksAppend` | agent.py:47-51 | filtering distributes over concatenation, so each anchor is kept or dropped on its own and the source order is preserved |
| `Lookups.KeptLinksMember` | agent.py:47-51 | a link is returned exactly when some anchor with non-empty href and text yields it |
| `Lookups.KeptLinksCount` | agent.py:47-51 | the number of links equals the number of anchors with non-empty href and text |
| `Lookups.SearchLinks` | agent.py:39-55 | at most `max_results` links (when non-negative), at most as many as anchors, all with non-empty title and url, and `[]` on any failure |
| `Context.Excerpt` | agent.py:170 | the `[:800]` slice is a prefix of the summary, at most 800 characters long, and either the whole summary or exactly 800 characters |
| `Context.WikiSegment` | agent.py:170 | the `WIKIPEDIA:` segment carries exactly the first 800 characters of the summary, or all of it when shorter |
| `Context.UrlSegment` | agent.py:171 | the `WIKI_URL: ` label followed by the URL verbatim when non-empty and by `N/A` when empty |
| `Context.UrlSegmentPlaceholder` | agent.py:171 | the `WIKI_URL:` segment shows the URL verbatim when non-empty and `N/A` when empty; the two coincide only for the URL `N/A` |
| `Context.LinkLine` | agent.py:172 | a link line is `- `, the title verbatim, `: `, then the url verbatim; it contains a newline only when the title or url does |
| `Context.LinksSegment` | agent.py:172 | the links segment is `QUICK_LINKS: N/A` exactly when there are no links, and otherwise starts with the `QUICK_LINKS:` header line |
| `Context.LinkLines` | agent.py:172 | one `- title: url` line per link, in order |
| `Context.ContextBlock` | agent.py:169-174 | the block is the `WIKIPEDIA:` segment, the `WIKI_URL:` segment and the links segment with one newline between each two |
| `Context.ContextBlockJoin` | agent.py:169-174 | the block is one newline join of the two segments, the links header and the link lines |
| `Context.ContextLines` | agent.py:169-174 | when no field holds a newline, the block's lines are exactly the `WIKIPEDIA:` segment, the `WIKI_URL:` segment, then `QUICK_LINKS: N/A` or `QUICK_LINKS:` followed by the link lines in order |
| `Pipeline.Title` | agent.py:179 | the title is a prefix of the stripped topic, does not end in `.`, and only periods were removed from the end |
| `Pipeline.TitleIdempotentIff` | agent.py:179 | taking the title twice gives the title exactly when it is empty or does not end in whitespace |
| `Pipeline.TitleNotIdempotent` | agent.py:179 | `"a ."` has title `"a "`, whose own title is `"a"`, so the title is not idempotent |
| `Pipeline.RunInputs` | agent.py:177-182 | the inputs carry the topic as given, its title (`Title` of the topic, so a prefix of the stripped topic not ending in `.`), the caller's date and the run's context block |
| `Pipeline.ContextPrefix` | agent.py:186 | the prefix is the context header, the context verbatim, then a blank line |
| `Pipeline.PrependContext` | agent.py:185-187 | the new description is the context header, the context verbatim, a blank line, then the old description, which stays a suffix |
| `Pipeline.AfterRunsStacks` | agent.py:185-187 | n calls of `run_pipeline` on one task object leave the n context prefixes, newest first, followed by the original description |
| `Pipeline.ResearchTask.constructor` | agent.py:113-124 | the research task starts with its fixed instruction template |
| `Pipeline.ResearchTask.RunPipeline` | agent.py:163-191 | the description becomes the context prefix followed by the old description, and the result is the kickoff's outcome on the run inputs and the updated description |
| `Ui.ShouldRun` | agent.py:196 | the pipeline runs exactly when the button was pressed and the topic has a non-whitespace character |
| `Ui.Session.constructor` | agent.py:107-108 | the report slot starts empty |
| `Ui.Session.Record` | agent.py:200-202 | a success stores the stripped result and shows no error; a failure leaves the slot unchanged and shows `Error: <message>`; the slot stays stripped |
| `Ui.Session.OnRun` | agent.py:196-202 | the pipeline runs on the stripped topic only when the gate is open, on a task freshly built from its template, so the kickoff sees the template with exactly one context prefix; on success the slot becomes the stripped result; on failure the slot is unchanged and `Error: <message>` is shown; the slot always stays stripped |

## Left out

- Network access is not modelled: `requests.get`/`post`, URL quoting, the `lang` host prefix, timeouts and `.json()` decoding. Each response is a datatype given as input.
- HTML parsing is not modelled: `select("a.result__a")` and `get_text(" ", strip=True)` come from a foreign library. The anchors arrive already parsed as `(href, text)` pairs, with `""` for a missing `href`.
- Lookups.WikiSummary: only string values of `title`, `extract` and `page` are modelled. The source would pass a non-string JSON value through unchanged, which the endpoint does not send.
- The language-model crew is not modelled: `LLM`, `Agent`, `Task`, `Crew` and `crew.kickoff`. Its output is foreign and non-deterministic, so the kickoff is a function parameter whose outcome is opaque. The crew's substitution of `{topic}`, `{title}` and `{date}` into task text is also the crew's.
- Pipeline.ResearchTask.RunPipeline: the kickoff is assumed to leave the research task's description as `run_pipeline` set it. The crew interpolates `{topic}` and the other inputs into task text inside foreign code, and whether that rewrites `research_task.description` is not modelled.
- Pipeline.AfterRunsStacks: this describes repeated calls of `run_pipeline` on one task object, which the page never makes. It also assumes that no kickoff rewrites the description between calls.
- Ui.Session.OnRun: the rest of a rerun is not modelled, that is, the other module-level objects the script rebuilds (LLM, agents, the other two tasks, the crew). The task is built inside `OnRun` at the point where the script would build it, before the gate.
- The summary and report task templates are prompt text that no code inspects, so they are not modelled. The research template is kept as a constant because its description is the one rewritten.
- Clock readings are not modelled: `datetime.now()` for the date input is a parameter, and the download file name is left out.
- Streamlit rendering is not modelled: page config, title, markdown, spinner, `error` display (returned as a value instead), `code`, the download button, and the "show report if non-empty" block.
- The API-key warning is not modelled. It only prints a warning when the key equals the placeholder literal, and nothing depends on it.
- Exceptions outside `Exception` are not modelled, since `except Exception` does not catch them.
- Text is a sequence of code points. Whitespace follows Python's `str.isspace` table. No encoding is modelled.
