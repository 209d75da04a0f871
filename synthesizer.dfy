/** The synthesis stage of the research agent: `ResearchAgent.summarize` with
    its adaptive length policy, and the graph node `summarize_node` that joins
    the retrieved documents into one text and projects them onto links. */
module Synthesizer {
  import opened Text
  import opened Retriever

  datatype Option<T> = None | Some(value: T)

  /** What the summarisation model answers for one call: a list of summaries
      (the agent reads the first one's `summary_text`), or an exception. */
  datatype ModelReply = Replied(summaries: seq<string>) | Raised

  /** The model handle built once at start-up: absent when loading failed,
      otherwise a function of the text and the maximum and minimum lengths. */
  datatype Summarizer = Absent | Present(run: (string, nat, nat) -> ModelReply)

  /** The arguments of one call to the model. */
  datatype Call = Call(text: string, maxLength: nat, minLength: nat)

  datatype Bounds = Bounds(maxLength: nat, minLength: nat)

  /** A source reference shown next to the summary. */
  datatype Link = Link(title: string, url: string, source: string)

  /** What `summarize_node` hands back to the graph. */
  datatype Outcome = Outcome(summary: string, links: seq<Link>)

  const MinWords: nat := 10
  const NoDataMarker := "Нет данных для суммаризации"
  const NoSummaryMarker := "Не удалось создать краткое содержание"
  const SummaryErrorMarker := "Ошибка при создании краткого содержания"
  const NotFoundSummary := "Результаты не найдены."
  const NoResultsSummary := "Нет результатов"
  const DefaultLinkTitle := "Ссылка"
  const DefaultUrl := "#"
  const UnknownSource := "Неизвестный источник"

  /** The adaptive bounds `min(130, max(30, w // 2))` and `min(30, max_len // 2)`:
      the maximum stays within 30..130, the minimum within 15..30 and below the
      maximum; the maximum is half the word count exactly for 60..261 words,
      and the minimum reaches 30 exactly from 120 words on. */
  function LengthBounds(words: nat): (b: Bounds)
    ensures 30 <= b.maxLength <= 130
    ensures 15 <= b.minLength <= 30
    ensures b.minLength < b.maxLength
    ensures b.maxLength == words / 2 <==> 60 <= words <= 261
    ensures b.minLength == 30 <==> words >= 120
    ensures words < 60 ==> b.maxLength == 30
    ensures words >= 262 ==> b.maxLength == 130
    ensures words < 120 ==> b.minLength == b.maxLength / 2
  {
    var maxLength := Min(130, if 30 <= words / 2 then words / 2 else 30);
    Bounds(maxLength, Min(30, maxLength / 2))
  }

  /** The number of whitespace-separated words, `len(text.split())`. */
  function WordCount(text: string): nat {
    |Words(text)|
  }

  /** The call `summarize` makes, if any: none when the text is empty or the
      model is absent (checked first), none for fewer than ten words; otherwise
      the stripped text with bounds inside the policy's ranges. */
  function ModelCall(text: string, model: Summarizer): (c: Option<Call>)
    ensures c.Some? <==> text != [] && model.Present? && WordCount(Strip(text)) >= MinWords
    ensures c.Some? ==> && c.value.text == Strip(text)
                        && c.value.maxLength == LengthBounds(WordCount(Strip(text))).maxLength
                        && c.value.minLength == LengthBounds(WordCount(Strip(text))).minLength
    ensures c.Some? ==> 30 <= c.value.maxLength <= 130 && 15 <= c.value.minLength < c.value.maxLength
  {
    if text == [] || model.Absent? then None
    else
      var stripped := Strip(text);
      var words := WordCount(stripped);
      if words < MinWords then None
      else
        var b := LengthBounds(words);
        Some(Call(stripped, b.maxLength, b.minLength))
  }

  /** `result[0]["summary_text"] if result else ...`, with an exception turned into its marker. */
  function ReplyText(reply: ModelReply): string {
    match reply
    case Raised => SummaryErrorMarker
    case Replied(summaries) => if summaries == [] then NoSummaryMarker else summaries[0]
  }

  /** `ResearchAgent.summarize(text)`: never fails; empty text or a missing model
      give the "no data" marker whatever the length, short text comes back
      stripped without consulting the model, and otherwise the model's answer
      (or a marker for an empty answer or an exception) for the planned call. */
  function Summarize(text: string, model: Summarizer): (r: string)
    ensures text == [] || model.Absent? ==> r == NoDataMarker
    ensures text != [] && model.Present? && WordCount(Strip(text)) < MinWords ==> r == Strip(text)
    ensures ModelCall(text, model).Some? ==>
              var c := ModelCall(text, model).value;
              r == ReplyText(model.run(c.text, c.maxLength, c.minLength))
  {
    match ModelCall(text, model)
    case Some(c) => ReplyText(model.run(c.text, c.maxLength, c.minLength))
    case None => if text == [] || model.Absent? then NoDataMarker else Strip(text)
  }

  /** Short text does not depend on which model is loaded: the model is not consulted. */
  lemma ShortTextIgnoresModel(text: string, m1: Summarizer, m2: Summarizer)
    requires text != [] && m1.Present? && m2.Present?
    requires WordCount(Strip(text)) < MinWords
    ensures Summarize(text, m1) == Summarize(text, m2) == Strip(text)
  {
  }

  /** The dictionaries among the items, in order (the `isinstance(result, dict)` filter). */
  function Dicts(items: seq<RawItem>): seq<map<string, string>> {
    if items == [] then []
    else
      var n := |items| - 1;
      Dicts(items[..n]) + (if items[n].Record? then [items[n].fields] else [])
  }

  /** The filter keeps at most as many entries as there are items, and only
      dictionaries that occur among them. */
  lemma {:induction false} DictsFromItems(items: seq<RawItem>)
    ensures |Dicts(items)| <= |items|
    ensures forall k :: 0 <= k < |Dicts(items)| ==> Record(Dicts(items)[k]) in items
  {
    if items != [] {
      var n := |items| - 1;
      var p := items[..n];
      DictsFromItems(p);
      assert forall k :: 0 <= k < n ==> p[k] == items[k];
      var ds := Dicts(items);
      assert ds == Dicts(p) + (if items[n].Record? then [items[n].fields] else []);
      forall k | 0 <= k < |ds| ensures Record(ds[k]) in items {
        if k < |Dicts(p)| {
          assert ds[k] == Dicts(p)[k];
        }
      }
    }
  }

  /** The filter works piecewise, so it keeps the dictionaries in their order. */
  lemma {:induction false} DictsAppend(a: seq<RawItem>, b: seq<RawItem>)
    ensures Dicts(a + b) == Dicts(a) + Dicts(b)
    decreases |b|
  {
    if b == [] {
      assert a + b == a;
    } else {
      var n := |b| - 1;
      var p := b[..n];
      DictsAppend(a, p);
      assert (a + b)[..|a + b| - 1] == a + p;
      assert (a + b)[|a + b| - 1] == b[n];
    }
  }

  /** When every item is a dictionary, the filter keeps them all, in order. */
  lemma {:induction false} DictsOfRecords(items: seq<RawItem>)
    requires forall k :: 0 <= k < |items| ==> items[k].Record?
    ensures |Dicts(items)| == |items|
    ensures forall k :: 0 <= k < |items| ==> Dicts(items)[k] == items[k].fields
  {
    if items != [] {
      var n := |items| - 1;
      var p := items[..n];
      assert forall k :: 0 <= k < n ==> p[k] == items[k];
      DictsOfRecords(p);
      assert Dicts(items) == Dicts(p) + [items[n].fields];
    }
  }

  /** A link's title: the stripped text before the first em-dash, so it never
      carries the attribution; a title without one is simply stripped. */
  function LinkTitle(title: string): (r: string)
    ensures Stripped(r) && EmDash !in r
    ensures EmDash !in title ==> r == Strip(title)
    ensures |r| <= |title|
  {
    var before := BeforeFirst(title, EmDash);
    assert EmDash !in title ==> before == title;
    StripKeepsAbsent(before, EmDash);
    Strip(before)
  }

  /** A title with an em-dash loses everything from its first em-dash on. */
  lemma LinkTitleBeforeEmDash(a: string, b: string)
    requires EmDash !in a
    ensures LinkTitle(a + [EmDash] + b) == Strip(a)
  {
    BeforeFirstAt(a, EmDash, b);
  }

  /** The link built for one result dictionary, with its defaults for missing keys. */
  function LinkFor(m: map<string, string>): Link {
    Link(LinkTitle(Get(m, "title", DefaultLinkTitle)), Get(m, "url", DefaultUrl), Get(m, "source", UnknownSource))
  }

  /** `valid_links`: one link per dictionary, appended in order. */
  function LinksFor(ds: seq<map<string, string>>): seq<Link> {
    Map(LinkFor, ds)
  }

  lemma LinksForIndex(ds: seq<map<string, string>>)
    ensures |LinksFor(ds)| == |ds|
    ensures forall k :: 0 <= k < |ds| ==> LinksFor(ds)[k] == LinkFor(ds[k])
  {
    MapIndex(LinkFor, ds);
  }

  /** The text block of one result: title, line break, content. */
  function Block(m: map<string, string>): string {
    Get(m, "title", "") + "\n" + Get(m, "content", "")
  }

  /** `combined_text`: each block preceded by a blank-line separator. */
  function Combined(ds: seq<map<string, string>>): string {
    if ds == [] then ""
    else Combined(ds[..|ds| - 1]) + "\n\n" + Block(ds[|ds| - 1])
  }

  /** `summarize_node`: no results give the "not found" summary and no links;
      otherwise one link per dictionary among the first five results, in order,
      and a summary that is never empty. */
  function NodeOutcome(results: seq<RawItem>, model: Summarizer): (o: Outcome)
    ensures results == [] ==> o == Outcome(NotFoundSummary, [])
    ensures o.summary != []
    ensures |o.links| <= MaxDocuments
    ensures results != [] ==> o.links == LinksFor(Dicts(Take(results, MaxDocuments)))
    ensures results != [] ==>
              var s := Summarize(Strip(Combined(Dicts(Take(results, MaxDocuments)))), model);
              o.summary == if s == [] then NoResultsSummary else s
  {
    if results == [] then Outcome(NotFoundSummary, [])
    else
      var ds := Dicts(Take(results, MaxDocuments));
      var summary := Summarize(Strip(Combined(ds)), model);
      DictsFromItems(Take(results, MaxDocuments));
      LinksForIndex(ds);
      Outcome(if summary == [] then NoResultsSummary else summary, LinksFor(ds))
  }

  /** No link `summarize_node` returns carries an em-dash in its title. */
  lemma NodeLinkTitles(results: seq<RawItem>, model: Summarizer)
    ensures forall k :: 0 <= k < |NodeOutcome(results, model).links| ==> EmDash !in NodeOutcome(results, model).links[k].title
  {
    var o := NodeOutcome(results, model);
    if results != [] {
      var ds := Dicts(Take(results, MaxDocuments));
      LinksForIndex(ds);
      forall k | 0 <= k < |o.links| ensures EmDash !in o.links[k].title {
        assert o.links[k] == LinkFor(ds[k]);
      }
    }
  }

  lemma DictsStep(items: seq<RawItem>, i: nat)
    requires i < |items|
    ensures Dicts(items[..i + 1]) == Dicts(items[..i]) + (if items[i].Record? then [items[i].fields] else [])
  {
    assert items[..i + 1][..i] == items[..i];
  }

  lemma CombinedStep(ds: seq<map<string, string>>, m: map<string, string>)
    ensures Combined(ds + [m]) == Combined(ds) + "\n\n" + Block(m)
  {
    assert (ds + [m])[..|ds|] == ds;
  }

  lemma LinksStep(ds: seq<map<string, string>>, m: map<string, string>)
    ensures LinksFor(ds + [m]) == LinksFor(ds) + [LinkFor(m)]
  {
    MapSnoc(LinkFor, ds, m);
  }

  /** The loop of `summarize_node`: it grows `combined_text` and `valid_links`
      one dictionary at a time. */
  method JoinResults(first: seq<RawItem>) returns (combined: string, links: seq<Link>)
    ensures combined == Combined(Dicts(first))
    ensures links == LinksFor(Dicts(first))
  {
    combined := "";
    links := [];
    ghost var ds: seq<map<string, string>> := [];
    var i := 0;
    while i < |first|
      invariant 0 <= i <= |first|
      invariant ds == Dicts(first[..i])
      invariant combined == Combined(ds)
      invariant links == LinksFor(ds)
    {
      DictsStep(first, i);
      if first[i].Record? {
        var m := first[i].fields;
        CombinedStep(ds, m);
        LinksStep(ds, m);
        combined := combined + "\n\n" + Block(m);
        links := links + [LinkFor(m)];
        ds := ds + [m];
      }
      i := i + 1;
    }
    assert first[..|first|] == first;
  }

  /** `summarize_node`: the loop over the first five results, then the summary
      of the stripped joined text. */
  method SummarizeNode(results: seq<RawItem>, model: Summarizer) returns (outcome: Outcome)
    ensures outcome == NodeOutcome(results, model)
  {
    if results == [] {
      return Outcome(NotFoundSummary, []);
    }
    var first := Take(results, MaxDocuments);
    var combined, links := JoinResults(first);
    DictsFromItems(first);
    LinksForIndex(Dicts(first));
    assert Take(links, MaxDocuments) == links;
    var summary := Summarize(Strip(combined), model);
    outcome := Outcome(if summary == [] then NoResultsSummary else summary, Take(links, MaxDocuments));
    assert outcome.links == NodeOutcome(results, model).links;
    assert outcome.summary == NodeOutcome(results, model).summary;
  }

  /** The joined text of one dictionary, once stripped, is its block stripped. */
  lemma SingleCombined(m: map<string, string>)
    ensures Strip(Combined([m])) == Strip(Block(m))
  {
    var sep := "\n\n";
    CombinedStep([], m);
    assert [] + [m] == [m];
    assert Combined([m]) == sep + Block(m) by {
      assert Combined([]) == "";
      assert "" + sep == sep;
    }
    assert IsSpace(sep[0]) && IsSpace(sep[1]);
    StripSkipsLeadingSpace(sep, Block(m));
  }

  /** A single dictionary among the first five results is all the loop sees. */
  lemma SingleDicts(m: map<string, string>)
    ensures Dicts(Take([Record(m)], MaxDocuments)) == [m]
  {
    assert Take([Record(m)], MaxDocuments) == [Record(m)];
    DictsOfRecords([Record(m)]);
  }

  /** One short document: the summary is its own stripped "title, line break,
      content" text and the only link points at its url. */
  lemma {:induction false} SingleShortResult(m: map<string, string>, model: Summarizer)
    requires model.Present?
    requires Strip(Block(m)) != []
    requires WordCount(Strip(Block(m))) < MinWords
    ensures NodeOutcome([Record(m)], model) == Outcome(Strip(Block(m)), [LinkFor(m)])
  {
    var ds := Dicts(Take([Record(m)], MaxDocuments));
    SingleDicts(m);
    SingleCombined(m);
    var text := Strip(Combined(ds));
    assert Strip(text) == text;
    var summary := Summarize(text, model);
    assert summary == text;
    LinksStep([], m);
    assert LinksFor([]) == [];
    var o := NodeOutcome([Record(m)], model);
    assert o.summary == summary;
    assert o.links == [LinkFor(m)];
  }
}
