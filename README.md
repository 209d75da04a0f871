# DeepResearch agent — a Dafny model of its search-and-summarise core

The DeepResearch agent answers a research query in two steps:
- the search node asks a web-search provider for ten results and normalises them;
- the summarise node joins the first five documents into one text, asks a summarisation model for a short summary, and projects the documents onto links.

`run_agent` validates the query, runs both nodes, and renders the links as markup.

This project models that deterministic core of `deepresearch_agent.py` in four modules.

- `Text` holds the Python `str` operations the agent relies on, with Python's meaning:
  - `isspace` (the full Unicode set);
  - `strip()`;
  - `split()`;
  - `split(c)[0]` and `split(c)[-1]`;
  - slicing and `''.join`.
- `Retriever` covers `ResearchAgent._clean_search_results` and `ResearchAgent.search`.
  - Raw results are `Record(map<string,string>)` or `NotRecord`.
  - The provider is a function from query and requested count to `Results(items)` or `Failed`.
  - The normalisation loop is the method `CleanSearchResults`. It is proved equal to the function `Cleaned`.
  - `Cleaned` is characterised by the ghost reference reading `IsFirstOccurrence`: a record is kept exactly when it is accepted and no earlier accepted record has its url.
- `Synthesizer` covers `ResearchAgent.summarize` and `summarize_node`.
  - The model is `Absent` or `Present(run)`. `run` maps text and the maximum and minimum lengths to `Replied(summaries)` or `Raised`.
  - The loop of `summarize_node` is the method `SummarizeNode`. It is proved equal to `NodeOutcome`.
- `Agent` covers the graph invocation and `run_agent`.
  - The graph is plain composition (`Graph`, method `InvokeGraph`).
  - The markup of one link is a `Fragment` function of url, title and source.
  - The formatting loop is `RenderLinks`, and `RunAgent` is proved equal to `AgentOutcome`.
  - The end-to-end lemmas follow a valid query from the provider's answer to the rendered markup.

Where a plain reading of the agent suggests otherwise, the model follows the code:
- Aliased fields take the first non-empty alias, because Python's `or` tests truthiness. A present but empty `href` falls through to `url`.
- The normalisation loop does not stop after five documents. It deduplicates the whole answer and cuts to five afterwards. Urls seen after the fifth kept document still enter `seen_urls`, but that changes no output.
- `summarize` has three fallback markers:
  - "no data", for empty text or no model;
  - "could not summarise", for an empty model reply;
  - "error", for an exception.
- A title with neither an em-dash nor a hyphen is its own source, stripped.

## Model

| member | source | states |
|---|---|---|
| Text.IsSpace | deepresearch_agent.py:79-80 | the whitespace set of `str.isspace()`, which `strip()` and `split()` use; a definition, used by every contract below |
| Text.Strip | deepresearch_agent.py:79 | `strip()` leaves no whitespace at either end, never lengthens, and returns an already stripped string unchanged (so stripping twice is stripping once) |
| Text.StripIsPiece | deepresearch_agent.py:79 | `strip()` returns the contiguous piece of its input that starts where `lstrip()` starts |
| Text.StripDropsTrailingSpace | deepresearch_agent.py:79 | every character `strip()` drops after the piece it keeps is whitespace |
| Text.StripRemovesOnlySpace | deepresearch_agent.py:79 | `strip()` returns a piece of its input with only whitespace before it and only whitespace after it: it removes whitespace and nothing else |
| Text.TrimLeft | deepresearch_agent.py:79 | the leading-whitespace cut returns a suffix of its input whose dropped characters are all whitespace and whose first character is not |
| Text.TrimRight | deepresearch_agent.py:79 | the trailing-whitespace cut returns a prefix of its input whose dropped characters are all whitespace and whose last character is not |
| Text.StripKeepsAbsent | deepresearch_agent.py:128 | stripping never introduces a character absent from its input |
| Text.StripSkipsLeadingSpace | deepresearch_agent.py:125-134 | whitespace put in front of a text (the `"\n\n"` separators) does not change what `strip()` returns |
| Text.Words | deepresearch_agent.py:80 | `split()` as maximal non-whitespace runs; a definition, characterised by WordsAreTokens, WordsSkipLeadingSpace and WordsLeadingToken |
| Text.WordsAreTokens | deepresearch_agent.py:80 | every word `split()` returns is non-empty and whitespace-free |
| Text.WordsSkipLeadingSpace | deepresearch_agent.py:80 | whitespace in front of a text adds no word (so an all-whitespace text has no words) |
| Text.WordsLeadingToken | deepresearch_agent.py:80 | a non-empty run of non-whitespace followed by whitespace or the end is exactly one word, followed by the words of the rest; with WordsSkipLeadingSpace this fixes `split()` on every text |
| Text.TokenLength | deepresearch_agent.py:80 | a word of `split()` ends exactly at the next whitespace character |
| Text.TokenLengthAtSpace | deepresearch_agent.py:80 | a non-whitespace run followed by whitespace or the end is read whole as one token |
| Text.Take | deepresearch_agent.py:63 | `s[:n]` has length `min(n, len(s))` and is a prefix of `s` |
| Text.BeforeFirst | deepresearch_agent.py:128 | `split(c)[0]` is the prefix without `c` that stops at the first `c` or at the end |
| Text.BeforeFirstAt | deepresearch_agent.py:128 | for `a + c + b` with no `c` in `a`, `split(c)[0]` is exactly `a` |
| Text.AfterLast | deepresearch_agent.py:55 | `split(c)[-1]` is the suffix without `c` that starts after the last `c` or at the start |
| Text.AfterLastAt | deepresearch_agent.py:55 | for `a + c + b` with no `c` in `b`, `split(c)[-1]` is exactly `b` |
| Text.Concat | deepresearch_agent.py:180 | `''.join(parts)`; a definition, used by Markup |
| Retriever.UrlOf | deepresearch_agent.py:47 | the url is empty exactly when the item is not a dictionary or both `href` and `url` are empty or missing; otherwise it is `href` when non-empty, else `url` |
| Retriever.TitleOf | deepresearch_agent.py:48 | `result.get('title', '')`; a definition, constrained through Accepted and FirstAcceptedWellFormed |
| Retriever.ContentOf | deepresearch_agent.py:49 | the content is `body` when non-empty, else `description` when non-empty, else `content` (or empty when missing); it is always one of the three aliases or empty |
| Retriever.SourceOf | deepresearch_agent.py:55 | the source is stripped and no longer than the title; it carries no em-dash; without an em-dash in the title it carries no hyphen either; with neither separator it is the stripped title |
| Retriever.SourceAfterLastEmDash | deepresearch_agent.py:55 | a title with an em-dash is attributed to the stripped text after its last em-dash, whatever hyphens it holds |
| Retriever.SourceAfterLastHyphen | deepresearch_agent.py:55 | a title without an em-dash is attributed to the stripped text after its last hyphen |
| Retriever.SourceAfterEmDash | deepresearch_agent.py:55 | worked example: "A — B" is attributed to "B" |
| Retriever.SourceAfterHyphen | deepresearch_agent.py:55 | worked example: "A - B" is attributed to "B" |
| Retriever.SourceWithoutSeparator | deepresearch_agent.py:55 | worked example: "Plain title" is its own source |
| Retriever.Normalize | deepresearch_agent.py:57-62 | the kept dictionary has the resolved url, title and content cut to 200 and 500 characters, the source taken from the uncut title and then cut to 100, and is well formed when url and title are non-empty |
| Retriever.Accepted | deepresearch_agent.py:45-50 | a dictionary with a non-empty url and title passes the first two tests of the skip condition; a definition |
| Retriever.SeenUrls | deepresearch_agent.py:42-52 | `seen_urls` after a pass; a definition, characterised by SeenUrlsMembers |
| Retriever.FirstAccepted | deepresearch_agent.py:43-62 | `cleaned` before the final cut; a definition, characterised by FirstAcceptedIsFirstOccurrences, FirstOccurrencesKept, OriginsIncreasing and FirstAcceptedUnique |
| Retriever.SeenUrlsMembers | deepresearch_agent.py:42-52 | a url is in `seen_urls` after a pass exactly when some accepted record of the pass has it |
| Retriever.LastFirstOccurrence | deepresearch_agent.py:50 | the test `url in seen_urls` on an accepted record is exactly "an earlier accepted record has this url" |
| Retriever.FirstOccurrenceInPrefix | deepresearch_agent.py:44-52 | whether a record is the first occurrence of its url does not depend on the records after it |
| Retriever.OriginsIncreasing | deepresearch_agent.py:44-57 | the kept records come from strictly increasing input positions, so input order is preserved |
| Retriever.FirstAcceptedIsFirstOccurrences | deepresearch_agent.py:44-62 | the pass keeps one document per kept position, each kept position is the first occurrence of an accepted url, and the document is that record normalised |
| Retriever.FirstOccurrencesKept | deepresearch_agent.py:44-57 | conversely, every first occurrence of an accepted url is kept |
| Retriever.EarliestWithUrl | deepresearch_agent.py:50-52 | every accepted record has a first occurrence of its url at or before it |
| Retriever.FirstAcceptedComplete | deepresearch_agent.py:47-57 | no accepted url is lost: some kept document carries it |
| Retriever.FirstAcceptedUnique | deepresearch_agent.py:50-52 | no two kept documents share a url |
| Retriever.FirstAcceptedWellFormed | deepresearch_agent.py:50-62 | every kept document has a non-empty url and title and respects the 200/500/100 limits |
| Retriever.Cleaned | deepresearch_agent.py:41-63 | the result is the first five of the kept documents (all of them when fewer), each well formed, no two with the same url |
| Retriever.CleanSearchResults | deepresearch_agent.py:41-63 | the loop with its `seen_urls` set and `cleaned` list returns exactly `Cleaned` of the raw results |
| Retriever.LongEnough | deepresearch_agent.py:66 | the query guard `not query or len(query.strip()) < 3`, negated; a definition, whose effect Searched and AgentOutcome state |
| Retriever.Searched | deepresearch_agent.py:65-74 | an empty query or one under three characters once stripped gives `[]` whatever the provider; a failing provider gives `[]`; otherwise the cleaned answer to the query with ten requested results; always at most five well-formed documents with distinct urls |
| Retriever.Search | deepresearch_agent.py:65-74 | the method returns exactly `Searched` |
| Synthesizer.LengthBounds | deepresearch_agent.py:83-85 | the maximum lies in 30..130, the minimum in 15..30 and below the maximum; the maximum is half the word count exactly for 60..261 words; the minimum is 30 exactly from 120 words on; below 60 words the maximum is 30, from 262 words it is 130, and below 120 words the minimum is half the maximum |
| Synthesizer.WordCount | deepresearch_agent.py:80-83 | `len(text.split())`; a definition over Words |
| Synthesizer.ModelCall | deepresearch_agent.py:77-91 | the model is called exactly when the text is non-empty, the model is loaded and the stripped text has at least ten words; the call gets the stripped text and the policy's bounds |
| Synthesizer.ReplyText | deepresearch_agent.py:92-95 | the first summary, or the "could not summarise" marker for an empty reply, or the error marker for an exception; a definition, used by Summarize |
| Synthesizer.Summarize | deepresearch_agent.py:76-95 | empty text or no model gives the "no data" marker (checked before the word count); fewer than ten words gives the stripped text; otherwise the model's first summary, the "could not summarise" marker for an empty reply, or the error marker for an exception |
| Synthesizer.ShortTextIgnoresModel | deepresearch_agent.py:79-81 | short text gives the same answer whichever model is loaded: the model is not consulted |
| Synthesizer.Dicts | deepresearch_agent.py:120-122 | the `isinstance(result, dict)` filter; a definition, characterised by DictsFromItems, DictsAppend, DictsOfRecords and DictsStep |
| Synthesizer.DictsFromItems | deepresearch_agent.py:120-122 | the loop sees no more entries than there are items, and each entry is a dictionary among the items |
| Synthesizer.DictsOfRecords | deepresearch_agent.py:120-122 | when every item is a dictionary, the loop sees all of them, in order |
| Synthesizer.DictsAppend | deepresearch_agent.py:120-122 | the filter works piecewise on concatenations, so it keeps the dictionaries in their input order and drops every non-dictionary |
| Synthesizer.DictsStep | deepresearch_agent.py:120-122 | one more item adds its dictionary to what the loop sees, or nothing when it is not a dictionary |
| Synthesizer.LinkTitle | deepresearch_agent.py:128 | a link title is stripped, carries no em-dash, is no longer than the title, and is the stripped title when that has no em-dash |
| Synthesizer.LinkTitleBeforeEmDash | deepresearch_agent.py:128 | a title with an em-dash keeps only the stripped text before its first em-dash |
| Synthesizer.NodeOutcome | deepresearch_agent.py:109-139 | no results give the "not found" summary and no links; otherwise one link per dictionary among the first five results, in order; the summary is never empty and is the summary of the stripped joined text, or the "no results" marker when that is empty |
| Synthesizer.LinkFor | deepresearch_agent.py:127-131 | the link of one dictionary: title before the first em-dash, stripped; url and source with their defaults; a definition, constrained by LinkTitle |
| Synthesizer.Block | deepresearch_agent.py:124 | `f"{title}\n{content}"` with empty defaults; a definition |
| Synthesizer.Combined | deepresearch_agent.py:118-125 | `combined_text`: each block preceded by a blank-line separator; a definition, characterised by CombinedStep |
| Synthesizer.LinksForIndex | deepresearch_agent.py:127-131 | `valid_links` holds one link per dictionary, the `k`-th built from the `k`-th dictionary |
| Synthesizer.NodeLinkTitles | deepresearch_agent.py:127-139 | no link the summarise node returns holds an em-dash in its title |
| Synthesizer.LinksStep | deepresearch_agent.py:127-131 | each dictionary appends its own link to `valid_links` |
| Synthesizer.CombinedStep | deepresearch_agent.py:124-125 | each dictionary appends a blank-line separator and its title-newline-content block to the joined text |
| Synthesizer.JoinResults | deepresearch_agent.py:118-131 | the loop over the first five results returns exactly the joined text and the links of the dictionaries among them |
| Synthesizer.SummarizeNode | deepresearch_agent.py:109-139 | the loop accumulating `combined_text` and `valid_links` returns exactly `NodeOutcome` |
| Synthesizer.SingleCombined | deepresearch_agent.py:124-134 | the stripped joined text of a single dictionary is its own block stripped |
| Synthesizer.SingleDicts | deepresearch_agent.py:120-122 | a single dictionary among the first five results is all the loop sees |
| Synthesizer.SingleShortResult | deepresearch_agent.py:109-139 | one dictionary whose text has fewer than ten words is summarised as its own stripped text, with its single link |
| Agent.KeptLinks | deepresearch_agent.py:166-167 | the links with a non-empty url; never more than the links given |
| Agent.KeptLinksMembers | deepresearch_agent.py:166-167 | a link is kept exactly when it is among the links and its url is non-empty |
| Agent.KeptLinksAll | deepresearch_agent.py:166-167 | when every url is non-empty, every link is kept |
| Agent.KeptLinksAppend | deepresearch_agent.py:166-167 | the filter works piecewise on concatenations, so kept links stay in their order |
| Agent.Render | deepresearch_agent.py:168-176 | the fragment of one link, built from its url, title and source; a definition |
| Agent.Fragments | deepresearch_agent.py:165-176 | `formatted_links`: the fragment of each kept link, in order; a definition, stepped by FragmentsStep |
| Agent.Graph | deepresearch_agent.py:102-106 | the graph searches for the stripped query; nothing found gives the "not found" summary and no links; the summary is never empty; at most five links |
| Agent.InvokeGraph | deepresearch_agent.py:102-106 | running the search node and then the summarise node gives exactly `Graph` |
| Agent.Markup | deepresearch_agent.py:165-180 | no rendered link gives the "sources not found" placeholder; otherwise the joined fragments of the rendered links among the first five |
| Agent.FragmentsStep | deepresearch_agent.py:166-176 | each link appends its fragment when its url is non-empty and nothing otherwise |
| Agent.RenderLinks | deepresearch_agent.py:165-180 | the formatting loop returns exactly `Markup` of the links |
| Agent.AgentOutcome | deepresearch_agent.py:155-181 | a query under three characters once stripped gives the validation message and `""` whatever the provider and model do; a valid query gives a non-empty summary |
| Agent.RunAgent | deepresearch_agent.py:155-181 | the body of `run_agent` returns exactly `AgentOutcome` |
| Agent.ValidQueryOutcome | deepresearch_agent.py:157-162 | a valid query gives the graph's summary on the stripped query and the markup of its links |
| Agent.GraphOfStripped | deepresearch_agent.py:103 | the search node's second strip changes nothing: the graph gives the same outcome for a query and its stripped form |
| Agent.AsItemLink | deepresearch_agent.py:127-131 | a document read back from its dictionary gives the link with its em-dash-free title, its url and its source |
| Agent.AsItemBlock | deepresearch_agent.py:124 | a document read back from its dictionary gives its title and content as the text block |
| Agent.AsItemsLinks | deepresearch_agent.py:120-131 | up to five documents become one link each, in order |
| Agent.GraphLinks | deepresearch_agent.py:102-131 | the graph's links are the links of the documents found, in order |
| Agent.MarkupOfDocuments | deepresearch_agent.py:165-180 | every link of a well-formed document is rendered, so the markup is one fragment per document in order, or the placeholder for none |
| Agent.DocumentLinksKept | deepresearch_agent.py:166-167 | every link of a well-formed document has a url, so all are rendered |
| Agent.GraphMarkup | deepresearch_agent.py:160-180 | the markup of the graph's links is the markup of the documents found |
| Agent.PipelineRendersEveryDocument | deepresearch_agent.py:155-181 | end to end for a valid query: the summary is the graph's, every document found is rendered once in order, and no document gives the "not found" summary with the placeholder |
| Agent.SingleDocumentMarkup | deepresearch_agent.py:178-180 | the markup for one document is its single fragment |
| Agent.SingleItem | deepresearch_agent.py:120-124 | one document is one dictionary whose text block is the document's title and content |
| Agent.NodeSingleShortDocument | deepresearch_agent.py:120-134 | the summarise node on one short document gives that document's stripped text |
| Agent.GraphSingleShortDocument | deepresearch_agent.py:102-134 | the graph on a search yielding one short document summarises it as its own stripped text |
| Agent.PipelineSingleShortDocument | deepresearch_agent.py:155-181 | end to end for a valid query whose search yields one short document: the summary is its stripped text and the markup its single fragment |

## Left out

- The DuckDuckGo client, its session and its network I/O. The provider is a parameter. Any exception it raises, and a malformed answer, are the single `Failed` answer.
- Loading the summarisation model. The pipeline is a `Summarizer` parameter: `Absent` when loading failed, `Present(run)` otherwise.
- Inference of the model itself. `run` is an arbitrary function, so nothing is claimed about summary quality.
- `do_sample=False` is not represented.
- A reply whose first element has no `summary_text` key would raise inside the `try`. It is covered by `Raised`, which gives the same error marker.
- LangGraph's graph construction and compilation. The graph is the composition `Graph`. Its state dictionaries always hold the keys the nodes read, so the defaults of `state.get`, `output.get` and `link.get` never apply and are not modelled.
- The exception handler around `run_agent`. Every field in the model is a string, so no step can raise and the "processing error" answer is unreachable.
- Dictionary values that are not strings: `None`, numbers, or values `str()` would convert. Every field value is a string, and `str()` is the identity on them.
- The HTML markup and CSS of one link. The fragment is a parameter of url, title and source. Only which links are rendered, and in which order, is modelled.
- Logging, the Gradio interface, the logo and theme, `demo.launch`, and the `ResearchState` class, which carries no behaviour.
