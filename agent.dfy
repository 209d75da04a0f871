/** The entry point `run_agent` and the two-node graph it invokes: the search
    node followed by the summarise node, then the rendering of the links. The
    graph library, the user interface and the markup are outside the model; a
    link's markup fragment is a parameter. */
module Agent {
  import opened Text
  import opened Retriever
  import opened Synthesizer

  const InvalidQueryMessage := "Запрос должен содержать минимум 3 символа."
  const NoSourcesFound := "Источники не найдены"

  /** The markup fragment for one link, from its url, title and source. */
  type Fragment = (string, string, string) -> string

  /** A document as the dictionary the search node puts into the graph state. */
  function AsItem(d: Document): RawItem {
    Record(map["title" := d.title, "content" := d.content, "url" := d.url, "source" := d.source])
  }

  function AsItems(docs: seq<Document>): seq<RawItem> {
    seq(|docs|, k requires 0 <= k < |docs| => AsItem(docs[k]))
  }

  /** The links `run_agent` renders: those with a non-empty url (their order is
      kept, see `KeptLinksAppend`). */
  function KeptLinks(links: seq<Link>): (kept: seq<Link>)
    ensures |kept| <= |links|
  {
    if links == [] then []
    else
      var n := |links| - 1;
      var p := links[..n];
      assert links == p + [links[n]];
      KeptLinks(p) + (if links[n].url != "" then [links[n]] else [])
  }

  /** Exactly the links with a non-empty url are kept. */
  lemma {:induction false} KeptLinksMembers(links: seq<Link>)
    ensures forall l :: l in KeptLinks(links) <==> l in links && l.url != ""
  {
    if links != [] {
      var n := |links| - 1;
      var p := links[..n];
      KeptLinksMembers(p);
      assert links == p + [links[n]];
    }
  }

  /** When every url is non-empty, every link is kept. */
  lemma {:induction false} KeptLinksAll(links: seq<Link>)
    requires forall k :: 0 <= k < |links| ==> links[k].url != ""
    ensures KeptLinks(links) == links
  {
    if links != [] {
      var n := |links| - 1;
      var p := links[..n];
      assert forall k :: 0 <= k < n ==> p[k] == links[k];
      KeptLinksAll(p);
      assert links == p + [links[n]];
    }
  }

  /** The filter works piecewise, so it keeps the links in their order. */
  lemma {:induction false} KeptLinksAppend(a: seq<Link>, b: seq<Link>)
    ensures KeptLinks(a + b) == KeptLinks(a) + KeptLinks(b)
    decreases |b|
  {
    if b == [] {
      assert a + b == a;
    } else {
      var n := |b| - 1;
      var p := b[..n];
      var tail := if b[n].url != "" then [b[n]] else [];
      KeptLinksAppend(a, p);
      assert (a + b)[..|a + b| - 1] == a + p;
      assert (a + b)[|a + b| - 1] == b[n];
      assert KeptLinks(a + b) == KeptLinks(a + p) + tail;
      assert KeptLinks(b) == KeptLinks(p) + tail;
    }
  }

  function Render(l: Link, fragment: Fragment): string {
    fragment(l.url, l.title, l.source)
  }

  /** `formatted_links`: one fragment per rendered link. */
  function Fragments(links: seq<Link>, fragment: Fragment): seq<string> {
    var kept := KeptLinks(links);
    seq(|kept|, k requires 0 <= k < |kept| => Render(kept[k], fragment))
  }

  /** `app.invoke`: the search node strips the query it is given and searches
      for it, then the summarise node works on the documents found. Nothing
      found gives the "not found" summary and no links; the summary is never
      empty, and at most five links come back. */
  function Graph(query: string, provider: Provider, model: Summarizer): (o: Outcome)
    ensures Searched(Strip(query), provider) == [] ==> o == Outcome(NotFoundSummary, [])
    ensures o.summary != []
    ensures |o.links| <= MaxDocuments
  {
    NodeOutcome(AsItems(Searched(Strip(query), provider)), model)
  }

  /** The markup `run_agent` returns for the links of the graph: the fragments
      of the first five links that have a url, joined, or the "no sources"
      placeholder when there is none. */
  function Markup(links: seq<Link>, fragment: Fragment): (html: string)
    ensures KeptLinks(Take(links, MaxDocuments)) == [] ==> html == NoSourcesFound
    ensures KeptLinks(Take(links, MaxDocuments)) != [] ==> html == Concat(Fragments(Take(links, MaxDocuments), fragment))
  {
    var fragments := Fragments(Take(links, MaxDocuments), fragment);
    if fragments == [] then NoSourcesFound else Concat(fragments)
  }

  /** `run_agent(query)`: a query shorter than three characters once stripped
      gets the validation message and no markup, whatever the provider and the
      model would do; otherwise the summary of the graph run on the stripped
      query, which is never empty, and the markup of its links. */
  function AgentOutcome(query: string, provider: Provider, model: Summarizer, fragment: Fragment): (r: (string, string))
    ensures !LongEnough(query) ==> r == (InvalidQueryMessage, "")
    ensures LongEnough(query) ==> r.0 != []
  {
    if !LongEnough(query) then (InvalidQueryMessage, "")
    else
      var outcome := Graph(Strip(query), provider, model);
      (outcome.summary, Markup(outcome.links, fragment))
  }

  lemma FragmentsStep(links: seq<Link>, i: nat, fragment: Fragment)
    requires i < |links|
    ensures Fragments(links[..i + 1], fragment)
            == Fragments(links[..i], fragment) + (if links[i].url != "" then [Render(links[i], fragment)] else [])
  {
    assert links[..i + 1][..i] == links[..i];
  }

  /** The two nodes run one after the other on the query of the initial state. */
  method InvokeGraph(query: string, provider: Provider, model: Summarizer) returns (outcome: Outcome)
    ensures outcome == Graph(query, provider, model)
  {
    var docs := Search(Strip(query), provider);
    outcome := SummarizeNode(AsItems(docs), model);
  }

  /** The formatting loop of `run_agent`: one fragment per link with a url
      among the first five. */
  method RenderLinks(links: seq<Link>, fragment: Fragment) returns (html: string)
    ensures html == Markup(links, fragment)
  {
    var first := Take(links, MaxDocuments);
    var formatted: seq<string> := [];
    var i := 0;
    while i < |first|
      invariant 0 <= i <= |first|
      invariant formatted == Fragments(first[..i], fragment)
    {
      FragmentsStep(first, i, fragment);
      if first[i].url != "" {
        formatted := formatted + [Render(first[i], fragment)];
      }
      i := i + 1;
    }
    assert first[..|first|] == first;
    html := if formatted == [] then NoSourcesFound else Concat(formatted);
  }

  /** The body of `run_agent`: validate, run the graph on the stripped query,
      then render its links. */
  method RunAgent(query: string, provider: Provider, model: Summarizer, fragment: Fragment)
    returns (summary: string, html: string)
    ensures (summary, html) == AgentOutcome(query, provider, model, fragment)
  {
    if !LongEnough(query) {
      return InvalidQueryMessage, "";
    }
    var outcome := InvokeGraph(Strip(query), provider, model);
    summary := outcome.summary;
    html := RenderLinks(outcome.links, fragment);
  }

  /** The link the pipeline builds for a retrieved document. */
  function DocumentLink(d: Document): Link {
    Link(LinkTitle(d.title), d.url, d.source)
  }

  /** A document read back from its dictionary gives the document's own link. */
  lemma AsItemLink(d: Document)
    ensures AsItem(d).Record? && LinkFor(AsItem(d).fields) == DocumentLink(d)
  {
    var m := AsItem(d).fields;
    assert "title" in m && m["title"] == d.title;
    assert "url" in m && m["url"] == d.url;
    assert "source" in m && m["source"] == d.source;
  }

  lemma AsItemsLinks(docs: seq<Document>)
    requires |docs| <= MaxDocuments
    ensures LinksFor(Dicts(Take(AsItems(docs), MaxDocuments)))
            == seq(|docs|, k requires 0 <= k < |docs| => DocumentLink(docs[k]))
  {
    var items := AsItems(docs);
    assert Take(items, MaxDocuments) == items;
    assert forall k :: 0 <= k < |items| ==> items[k].Record? by {
      forall k | 0 <= k < |items| ensures items[k].Record? {
        AsItemLink(docs[k]);
      }
    }
    var ds := Dicts(items);
    DictsOfRecords(items);
    LinksForIndex(ds);
    forall k | 0 <= k < |docs|
      ensures LinkFor(ds[k]) == DocumentLink(docs[k])
    {
      assert ds[k] == items[k].fields;
      AsItemLink(docs[k]);
    }
  }

  /** The graph turns every document the search yields into its link, in order. */
  lemma GraphLinks(query: string, provider: Provider, model: Summarizer)
    ensures var docs := Searched(Strip(query), provider);
            Graph(query, provider, model).links
            == seq(|docs|, k requires 0 <= k < |docs| => DocumentLink(docs[k]))
  {
    var docs := Searched(Strip(query), provider);
    if docs != [] {
      AsItemsLinks(docs);
    }
  }

  /** The markup for the links of well-formed documents: one fragment per
      document, in order, or the placeholder when there is no document. */
  lemma MarkupOfDocuments(docs: seq<Document>, fragment: Fragment)
    requires |docs| <= MaxDocuments
    requires forall k :: 0 <= k < |docs| ==> WellFormed(docs[k])
    ensures var links := seq(|docs|, k requires 0 <= k < |docs| => DocumentLink(docs[k]));
            var parts := seq(|docs|, k requires 0 <= k < |docs| => Render(DocumentLink(docs[k]), fragment));
            Markup(links, fragment) == if docs == [] then NoSourcesFound else Concat(parts)
  {
    var links := seq(|docs|, k requires 0 <= k < |docs| => DocumentLink(docs[k]));
    var parts := seq(|docs|, k requires 0 <= k < |docs| => Render(DocumentLink(docs[k]), fragment));
    assert Take(links, MaxDocuments) == links;
    DocumentLinksKept(docs);
    assert Fragments(links, fragment) == parts;
  }

  /** Every link of a well-formed document has a url, so all of them are kept. */
  lemma DocumentLinksKept(docs: seq<Document>)
    requires forall k :: 0 <= k < |docs| ==> WellFormed(docs[k])
    ensures var links := seq(|docs|, k requires 0 <= k < |docs| => DocumentLink(docs[k]));
            KeptLinks(links) == links
  {
    var links := seq(|docs|, k requires 0 <= k < |docs| => DocumentLink(docs[k]));
    forall k | 0 <= k < |links| ensures links[k].url != "" {
      assert WellFormed(docs[k]);
    }
    KeptLinksAll(links);
  }

  /** The markup of a list of documents written directly: the fragment of each
      document's link, in order, joined, or the placeholder for no document. */
  function DocumentsMarkup(docs: seq<Document>, fragment: Fragment): string {
    if docs == [] then NoSourcesFound
    else Concat(seq(|docs|, k requires 0 <= k < |docs| => Render(DocumentLink(docs[k]), fragment)))
  }

  lemma ValidQueryOutcome(query: string, provider: Provider, model: Summarizer, fragment: Fragment)
    requires LongEnough(query)
    ensures AgentOutcome(query, provider, model, fragment)
            == (Graph(Strip(query), provider, model).summary, Markup(Graph(Strip(query), provider, model).links, fragment))
  {
  }

  /** The search node strips the query `run_agent` already stripped: the graph
      gives the same outcome for the query and for its stripped form. */
  lemma GraphOfStripped(query: string, provider: Provider, model: Summarizer)
    ensures Graph(Strip(query), provider, model) == Graph(query, provider, model)
  {
    assert Strip(Strip(query)) == Strip(query);
  }

  /** The markup of the graph's links is the markup of the documents found. */
  lemma GraphMarkup(query: string, provider: Provider, model: Summarizer, fragment: Fragment)
    ensures Markup(Graph(query, provider, model).links, fragment)
            == DocumentsMarkup(Searched(Strip(query), provider), fragment)
  {
    var docs := Searched(Strip(query), provider);
    GraphLinks(query, provider, model);
    MarkupOfDocuments(docs, fragment);
  }

  /** End to end, for a valid query: the provider is asked about the stripped
      query, the summary is the graph's, and every retrieved document is
      rendered, in order, as exactly one fragment; no documents give the
      "not found" summary and the "no sources" placeholder. */
  lemma PipelineRendersEveryDocument(query: string, provider: Provider, model: Summarizer, fragment: Fragment)
    requires LongEnough(query)
    ensures AgentOutcome(query, provider, model, fragment)
            == (Graph(query, provider, model).summary, DocumentsMarkup(Searched(Strip(query), provider), fragment))
    ensures Searched(Strip(query), provider) == [] ==> AgentOutcome(query, provider, model, fragment) == (NotFoundSummary, NoSourcesFound)
  {
    ValidQueryOutcome(query, provider, model, fragment);
    GraphOfStripped(query, provider, model);
    GraphMarkup(query, provider, model, fragment);
  }

  /** The markup of a single document is that document's fragment alone. */
  lemma SingleDocumentMarkup(docs: seq<Document>, fragment: Fragment)
    requires |docs| == 1
    ensures DocumentsMarkup(docs, fragment) == Render(DocumentLink(docs[0]), fragment)
  {
    var d := docs[0];
    assert docs == [d];
    var parts := seq(1, k requires 0 <= k < 1 => Render(DocumentLink([d][k]), fragment));
    assert parts == [Render(DocumentLink(d), fragment)];
    assert Concat(parts) == parts[0] + Concat([]);
  }

  /** A document's dictionary gives back the document's title and content as its text block. */
  lemma AsItemBlock(d: Document)
    ensures AsItem(d) == Record(AsItem(d).fields)
    ensures Block(AsItem(d).fields) == d.title + "\n" + d.content
  {
    var m := AsItem(d).fields;
    assert "title" in m && m["title"] == d.title;
    assert "content" in m && m["content"] == d.content;
  }

  /** One document becomes one dictionary whose block is its title and content. */
  lemma SingleItem(d: Document)
    ensures AsItems([d]) == [Record(AsItem(d).fields)]
    ensures Block(AsItem(d).fields) == d.title + "\n" + d.content
  {
    AsItemBlock(d);
    assert AsItems([d])[0] == AsItem(d);
  }

  /** The summarise node on a single short document gives its stripped text. */
  lemma NodeSingleShortDocument(docs: seq<Document>, model: Summarizer)
    requires model.Present? && |docs| == 1
    requires Strip(docs[0].title + "\n" + docs[0].content) != []
    requires WordCount(Strip(docs[0].title + "\n" + docs[0].content)) < MinWords
    ensures NodeOutcome(AsItems(docs), model).summary == Strip(docs[0].title + "\n" + docs[0].content)
  {
    var d := docs[0];
    assert docs == [d];
    SingleItem(d);
    SingleShortResult(AsItem(d).fields, model);
  }

  /** The graph on a search that yields one short document summarises it as
      its own stripped text. */
  lemma GraphSingleShortDocument(query: string, provider: Provider, model: Summarizer)
    requires model.Present?
    requires |Searched(Strip(query), provider)| == 1
    requires var d := Searched(Strip(query), provider)[0];
             Strip(d.title + "\n" + d.content) != [] && WordCount(Strip(d.title + "\n" + d.content)) < MinWords
    ensures var d := Searched(Strip(query), provider)[0];
            Graph(query, provider, model).summary == Strip(d.title + "\n" + d.content)
  {
    NodeSingleShortDocument(Searched(Strip(query), provider), model);
  }

  /** End to end, for a valid query whose search yields one short document: the
      summary is that document's stripped "title, line break, content" text,
      and the markup is the single fragment for its link. */
  lemma PipelineSingleShortDocument(query: string, provider: Provider, model: Summarizer, fragment: Fragment)
    requires LongEnough(query) && model.Present?
    requires |Searched(Strip(query), provider)| == 1
    requires var d := Searched(Strip(query), provider)[0];
             Strip(d.title + "\n" + d.content) != [] && WordCount(Strip(d.title + "\n" + d.content)) < MinWords
    ensures var d := Searched(Strip(query), provider)[0];
            AgentOutcome(query, provider, model, fragment)
            == (Strip(d.title + "\n" + d.content), Render(DocumentLink(d), fragment))
  {
    GraphSingleShortDocument(query, provider, model);
    SingleDocumentMarkup(Searched(Strip(query), provider), fragment);
    PipelineRendersEveryDocument(query, provider, model, fragment);
  }
}
