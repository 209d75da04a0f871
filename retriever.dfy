/** The retrieval stage of the research agent: `ResearchAgent.search` and the
    normalisation pass `ResearchAgent._clean_search_results` behind it. */
module Retriever {
  import opened Text

  /** One item of the provider's answer: a dictionary of string fields, or
      something that is not a dictionary at all (skipped by the agent). */
  datatype RawItem = Record(fields: map<string, string>) | NotRecord

  /** A normalised search hit, as the agent stores it in `cleaned`. */
  datatype Document = Document(title: string, content: string, url: string, source: string)

  /** The provider's answer to one text search: a list of raw items, or a failure
      (network error, malformed answer, timeout). */
  datatype Response = Results(items: seq<RawItem>) | Failed

  /** The web-search provider: query and requested number of results to an answer. */
  type Provider = (string, nat) -> Response

  const EmDash: char := '\U{2014}'
  const Hyphen: char := '-'
  const TitleLimit: nat := 200
  const ContentLimit: nat := 500
  const SourceLimit: nat := 100
  const MaxDocuments: nat := 5
  const RequestedResults: nat := 10
  const MinQueryLength: nat := 3

  /** `m.get(key, default)` on a dictionary of strings. */
  function Get(m: map<string, string>, key: string, default: string): string {
    if key in m then m[key] else default
  }

  /** `result.get('href') or result.get('url') or ''`: the first alias holding a non-empty string. */
  function UrlOf(item: RawItem): (u: string)
    ensures u == "" <==> !item.Record? || (Get(item.fields, "href", "") == "" && Get(item.fields, "url", "") == "")
    ensures u != "" && Get(item.fields, "href", "") != "" ==> u == item.fields["href"]
    ensures u != "" && Get(item.fields, "href", "") == "" ==> u == item.fields["url"]
  {
    if !item.Record? then ""
    else if Get(item.fields, "href", "") != "" then item.fields["href"]
    else Get(item.fields, "url", "")
  }

  /** `result.get('title', '')` */
  function TitleOf(item: RawItem): string {
    if item.Record? then Get(item.fields, "title", "") else ""
  }

  /** `result.get('body') or result.get('description') or result.get('content', '')` */
  function ContentOf(item: RawItem): (c: string)
    ensures item.Record? && Get(item.fields, "body", "") != "" ==> c == item.fields["body"]
    ensures item.Record? && Get(item.fields, "body", "") == "" && Get(item.fields, "description", "") != ""
            ==> c == item.fields["description"]
    ensures item.Record? && Get(item.fields, "body", "") == "" && Get(item.fields, "description", "") == ""
            ==> c == Get(item.fields, "content", "")
    ensures c != "" ==> item.Record? && (c == Get(item.fields, "body", "") || c == Get(item.fields, "description", "")
                                         || c == Get(item.fields, "content", ""))
  {
    if !item.Record? then ""
    else if Get(item.fields, "body", "") != "" then item.fields["body"]
    else if Get(item.fields, "description", "") != "" then item.fields["description"]
    else Get(item.fields, "content", "")
  }

  /** The attribution at the end of a title: the stripped text after the last
      em-dash when there is one, else after the last hyphen, else the whole
      stripped title. A heuristic kept exactly as the agent applies it. */
  function SourceOf(title: string): (r: string)
    ensures Stripped(r)
    ensures |r| <= |title|
    ensures EmDash in title ==> EmDash !in r
    ensures EmDash !in title ==> EmDash !in r && Hyphen !in r
    ensures EmDash !in title && Hyphen !in title ==> r == Strip(title)
  {
    if EmDash in title then Strip(AfterLast(title, EmDash)) else Strip(AfterLast(title, Hyphen))
  }

  /** A title with an em-dash is attributed to the stripped text after its
      last em-dash, even when hyphens occur anywhere. */
  lemma SourceAfterLastEmDash(a: string, b: string)
    requires EmDash !in b
    ensures SourceOf(a + [EmDash] + b) == Strip(b)
  {
    var t := a + [EmDash] + b;
    assert t[|a|] == EmDash;
    AfterLastAt(a, EmDash, b);
  }

  /** A title without em-dash is attributed to the stripped text after its last hyphen. */
  lemma SourceAfterLastHyphen(a: string, b: string)
    requires EmDash !in a && EmDash !in b && Hyphen !in b
    ensures SourceOf(a + [Hyphen] + b) == Strip(b)
  {
    var t := a + [Hyphen] + b;
    assert EmDash !in t by {
      assert forall k :: 0 <= k < |t| ==> t[k] == if k < |a| then a[k] else if k == |a| then Hyphen else b[k - |a| - 1];
    }
    AfterLastAt(a, Hyphen, b);
  }

  lemma StripLeadingBlank()
    ensures Strip(" B") == "B"
  {
    assert IsSpace(" "[0]);
    StripSkipsLeadingSpace(" ", "B");
    assert " " + "B" == " B";
    assert Stripped("B");
  }

  /** Worked example: "A — B" is attributed to "B". */
  lemma SourceAfterEmDash()
    ensures SourceOf("A \U{2014} B") == "B"
  {
    var t := "A \U{2014} B";
    assert t[2] == EmDash;
    var u := t[..4];
    var v := u[..3];
    assert v[2] == EmDash;
    assert AfterLast(v, EmDash) == [];
    assert AfterLast(u, EmDash) == " ";
    assert AfterLast(t, EmDash) == " B";
    StripLeadingBlank();
  }

  /** Worked example: "A - B", with no em-dash, is attributed to "B". */
  lemma SourceAfterHyphen()
    ensures SourceOf("A - B") == "B"
  {
    var t := "A - B";
    assert forall k :: 0 <= k < |t| ==> t[k] != EmDash;
    var u := t[..4];
    var v := u[..3];
    assert v[2] == Hyphen;
    assert AfterLast(v, Hyphen) == [];
    assert AfterLast(u, Hyphen) == " ";
    assert AfterLast(t, Hyphen) == " B";
    StripLeadingBlank();
  }

  /** Without any separator the source is the whole (stripped) title. */
  lemma SourceWithoutSeparator()
    ensures SourceOf("Plain title") == "Plain title"
  {
    var t := "Plain title";
    assert forall k :: 0 <= k < |t| ==> t[k] != EmDash && t[k] != Hyphen;
    assert Stripped(t);
  }

  /** Every record the agent keeps satisfies the bounds of a normalised document. */
  predicate WellFormed(d: Document) {
    && d.url != ""
    && d.title != ""
    && |d.title| <= TitleLimit
    && |d.content| <= ContentLimit
    && |d.source| <= SourceLimit
  }

  /** The dictionary built for a kept record: title, content and source cut to
      their limits, the source taken from the title before it is cut. */
  function Normalize(item: RawItem): (d: Document)
    requires item.Record?
    ensures d.url == UrlOf(item)
    ensures |d.title| == Min(TitleLimit, |TitleOf(item)|) && d.title == TitleOf(item)[..|d.title|]
    ensures |d.content| == Min(ContentLimit, |ContentOf(item)|) && d.content == ContentOf(item)[..|d.content|]
    ensures |d.source| == Min(SourceLimit, |SourceOf(TitleOf(item))|)
    ensures d.source == SourceOf(TitleOf(item))[..|d.source|]
    ensures UrlOf(item) != "" && TitleOf(item) != "" ==> WellFormed(d)
  {
    var title := TitleOf(item);
    Document(Take(title, TitleLimit), Take(ContentOf(item), ContentLimit), UrlOf(item),
             Take(SourceOf(title), SourceLimit))
  }

  /** A record passes the filter when it is a dictionary with a non-empty url and title. */
  predicate Accepted(item: RawItem) {
    item.Record? && UrlOf(item) != "" && TitleOf(item) != ""
  }

  /** `seen_urls` after a pass over `raw`: the urls of its accepted records. */
  function SeenUrls(raw: seq<RawItem>): set<string> {
    if raw == [] then {}
    else
      var n := |raw| - 1;
      SeenUrls(raw[..n]) + (if Accepted(raw[n]) then {UrlOf(raw[n])} else {})
  }

  lemma {:induction false} SeenUrlsMembers(raw: seq<RawItem>, u: string)
    ensures u in SeenUrls(raw) <==> exists j :: 0 <= j < |raw| && Accepted(raw[j]) && UrlOf(raw[j]) == u
  {
    if raw != [] {
      var n := |raw| - 1;
      SeenUrlsMembers(raw[..n], u);
      if exists j :: 0 <= j < |raw| && Accepted(raw[j]) && UrlOf(raw[j]) == u {
        var j :| 0 <= j < |raw| && Accepted(raw[j]) && UrlOf(raw[j]) == u;
        if j < n {
          assert raw[..n][j] == raw[j];
        }
      }
      if u in SeenUrls(raw[..n]) {
        var j :| 0 <= j < n && Accepted(raw[..n][j]) && UrlOf(raw[..n][j]) == u;
        assert raw[j] == raw[..n][j];
      }
    }
  }

  /** `cleaned` after a pass over `raw`, before the final cut to five. */
  function FirstAccepted(raw: seq<RawItem>): seq<Document> {
    if raw == [] then []
    else
      var n := |raw| - 1;
      FirstAccepted(raw[..n])
        + (if Accepted(raw[n]) && UrlOf(raw[n]) !in SeenUrls(raw[..n]) then [Normalize(raw[n])] else [])
  }

  /** The positions in `raw` that `FirstAccepted` keeps. */
  ghost function Origins(raw: seq<RawItem>): seq<nat> {
    if raw == [] then []
    else
      var n := |raw| - 1;
      Origins(raw[..n]) + (if Accepted(raw[n]) && UrlOf(raw[n]) !in SeenUrls(raw[..n]) then [n] else [])
  }

  /** Reference reading of the filter: `raw[i]` is accepted and no accepted
      record before it has the same url (first occurrence wins). */
  ghost predicate IsFirstOccurrence(raw: seq<RawItem>, i: int)
    requires 0 <= i < |raw|
  {
    Accepted(raw[i]) && forall j :: 0 <= j < i && Accepted(raw[j]) ==> UrlOf(raw[j]) != UrlOf(raw[i])
  }

  /** Whether a position is a first occurrence does not depend on what follows it. */
  lemma FirstOccurrenceInPrefix(raw: seq<RawItem>, n: nat, i: nat)
    requires i < n <= |raw|
    ensures IsFirstOccurrence(raw[..n], i) == IsFirstOccurrence(raw, i)
  {
    assert forall j :: 0 <= j <= i ==> raw[..n][j] == raw[j];
  }

  /** The check made against `seen_urls` is the first-occurrence test. */
  lemma LastFirstOccurrence(raw: seq<RawItem>)
    requires raw != []
    ensures var n := |raw| - 1;
      IsFirstOccurrence(raw, n) <==> Accepted(raw[n]) && UrlOf(raw[n]) !in SeenUrls(raw[..n])
  {
    var n := |raw| - 1;
    SeenUrlsMembers(raw[..n], UrlOf(raw[n]));
    assert forall j :: 0 <= j < n ==> raw[..n][j] == raw[j];
  }

  /** The kept positions lie inside the input and are strictly increasing. */
  lemma {:induction false} OriginsIncreasing(raw: seq<RawItem>)
    ensures forall k :: 0 <= k < |Origins(raw)| ==> Origins(raw)[k] < |raw|
    ensures forall k, l :: 0 <= k < l < |Origins(raw)| ==> Origins(raw)[k] < Origins(raw)[l]
  {
    if raw != [] {
      var n := |raw| - 1;
      var p := raw[..n];
      OriginsIncreasing(p);
      var keep := Accepted(raw[n]) && UrlOf(raw[n]) !in SeenUrls(p);
      var o, op := Origins(raw), Origins(p);
      assert o == op + (if keep then [n] else []);
      forall k, l | 0 <= k < l < |o|
        ensures o[k] < o[l]
      {
        assert o[k] == op[k];
      }
    }
  }

  /** The pass keeps exactly the first occurrences of accepted urls, in input
      order, each normalised. */
  lemma {:induction false} FirstAcceptedIsFirstOccurrences(raw: seq<RawItem>)
    ensures |Origins(raw)| == |FirstAccepted(raw)|
    ensures forall k :: 0 <= k < |Origins(raw)| ==>
              Origins(raw)[k] < |raw| && IsFirstOccurrence(raw, Origins(raw)[k])
              && FirstAccepted(raw)[k] == Normalize(raw[Origins(raw)[k]])
  {
    if raw != [] {
      var n := |raw| - 1;
      var p := raw[..n];
      FirstAcceptedIsFirstOccurrences(p);
      LastFirstOccurrence(raw);
      var keep := Accepted(raw[n]) && UrlOf(raw[n]) !in SeenUrls(p);
      var o, op := Origins(raw), Origins(p);
      var fa, fp := FirstAccepted(raw), FirstAccepted(p);
      assert o == op + (if keep then [n] else []);
      assert fa == fp + (if keep then [Normalize(raw[n])] else []);
      forall k | 0 <= k < |o|
        ensures o[k] < |raw| && IsFirstOccurrence(raw, o[k]) && fa[k] == Normalize(raw[o[k]])
      {
        if k < |op| {
          assert o[k] == op[k] && fa[k] == fp[k];
          assert raw[o[k]] == p[op[k]];
          FirstOccurrenceInPrefix(raw, n, op[k]);
        }
      }
    }
  }

  /** Conversely, every first occurrence of an accepted url is kept. */
  lemma {:induction false} FirstOccurrencesKept(raw: seq<RawItem>)
    ensures forall i :: 0 <= i < |raw| && IsFirstOccurrence(raw, i) ==> i in Origins(raw)
  {
    if raw != [] {
      var n := |raw| - 1;
      var p := raw[..n];
      FirstOccurrencesKept(p);
      LastFirstOccurrence(raw);
      var keep := Accepted(raw[n]) && UrlOf(raw[n]) !in SeenUrls(p);
      var o, op := Origins(raw), Origins(p);
      assert o == op + (if keep then [n] else []);
      forall i | 0 <= i < |raw| && IsFirstOccurrence(raw, i)
        ensures i in o
      {
        if i < n {
          FirstOccurrenceInPrefix(raw, n, i);
          assert i in op;
        }
      }
    }
  }

  /** No two kept documents share a url. */
  lemma FirstAcceptedUnique(raw: seq<RawItem>)
    ensures forall k, l :: 0 <= k < l < |FirstAccepted(raw)| ==> FirstAccepted(raw)[k].url != FirstAccepted(raw)[l].url
  {
    FirstAcceptedIsFirstOccurrences(raw);
    OriginsIncreasing(raw);
    var o := Origins(raw);
    forall k, l | 0 <= k < l < |FirstAccepted(raw)|
      ensures FirstAccepted(raw)[k].url != FirstAccepted(raw)[l].url
    {
      assert o[k] < o[l];
      assert IsFirstOccurrence(raw, o[l]);
      assert Accepted(raw[o[k]]);
    }
  }

  /** Every kept document has a url and a title and respects the length limits. */
  lemma FirstAcceptedWellFormed(raw: seq<RawItem>)
    ensures forall k :: 0 <= k < |FirstAccepted(raw)| ==> WellFormed(FirstAccepted(raw)[k])
  {
    FirstAcceptedIsFirstOccurrences(raw);
    var o := Origins(raw);
    forall k | 0 <= k < |FirstAccepted(raw)| ensures WellFormed(FirstAccepted(raw)[k]) {
      assert IsFirstOccurrence(raw, o[k]);
    }
  }

  /** Every accepted record has a first occurrence of its url at or before it. */
  lemma {:induction false} EarliestWithUrl(raw: seq<RawItem>, i: nat) returns (j: nat)
    requires i < |raw| && Accepted(raw[i])
    ensures j <= i && IsFirstOccurrence(raw, j) && UrlOf(raw[j]) == UrlOf(raw[i])
    decreases i
  {
    if IsFirstOccurrence(raw, i) {
      j := i;
    } else {
      var e :| 0 <= e < i && Accepted(raw[e]) && UrlOf(raw[e]) == UrlOf(raw[i]);
      j := EarliestWithUrl(raw, e);
    }
  }

  /** No accepted url is lost: every accepted record's url is the url of a kept document. */
  lemma FirstAcceptedComplete(raw: seq<RawItem>, i: nat)
    requires i < |raw| && Accepted(raw[i])
    ensures exists k :: 0 <= k < |FirstAccepted(raw)| && FirstAccepted(raw)[k].url == UrlOf(raw[i])
  {
    var j := EarliestWithUrl(raw, i);
    FirstAcceptedIsFirstOccurrences(raw);
    FirstOccurrencesKept(raw);
    var k :| 0 <= k < |Origins(raw)| && Origins(raw)[k] == j;
    assert FirstAccepted(raw)[k] == Normalize(raw[j]);
  }

  /** `_clean_search_results(results)`: at most five well-formed documents with
      distinct urls, the leading ones of the full pass. */
  function Cleaned(raw: seq<RawItem>): (docs: seq<Document>)
    ensures |docs| == Min(MaxDocuments, |FirstAccepted(raw)|)
    ensures docs == FirstAccepted(raw)[..|docs|]
    ensures forall k :: 0 <= k < |docs| ==> WellFormed(docs[k])
    ensures forall k, l :: 0 <= k < l < |docs| ==> docs[k].url != docs[l].url
  {
    var all := FirstAccepted(raw);
    FirstAcceptedUnique(raw);
    FirstAcceptedWellFormed(raw);
    Take(all, MaxDocuments)
  }

  /** The loop of `_clean_search_results`: a `seen_urls` set and a growing `cleaned`
      list, cut to five at the end. */
  method CleanSearchResults(results: seq<RawItem>) returns (cleaned: seq<Document>)
    ensures cleaned == Cleaned(results)
  {
    var seen: set<string> := {};
    var kept: seq<Document> := [];
    for i := 0 to |results|
      invariant seen == SeenUrls(results[..i])
      invariant kept == FirstAccepted(results[..i])
    {
      assert results[..i + 1][..i] == results[..i];
      var item := results[i];
      if !item.Record? {
        continue;
      }
      var url := UrlOf(item);
      var title := TitleOf(item);
      if url == "" || title == "" || url in seen {
        continue;
      }
      seen := seen + {url};
      kept := kept + [Normalize(item)];
    }
    assert results[..|results|] == results;
    cleaned := Take(kept, MaxDocuments);
  }

  /** `not query or len(query.strip()) < 3`, negated. */
  predicate LongEnough(query: string) {
    query != [] && |Strip(query)| >= MinQueryLength
  }

  /** `ResearchAgent.search(query)`: a short query gives no documents whatever the
      provider would answer; a failed search gives none either; otherwise the
      provider's answer for ten results is normalised. */
  function Searched(query: string, provider: Provider): (docs: seq<Document>)
    ensures !LongEnough(query) ==> docs == []
    ensures provider(query, RequestedResults).Failed? ==> docs == []
    ensures LongEnough(query) && provider(query, RequestedResults).Results?
            ==> docs == Cleaned(provider(query, RequestedResults).items)
    ensures |docs| <= MaxDocuments
    ensures forall k :: 0 <= k < |docs| ==> WellFormed(docs[k])
    ensures forall k, l :: 0 <= k < l < |docs| ==> docs[k].url != docs[l].url
  {
    if !LongEnough(query) then []
    else
      match provider(query, RequestedResults)
      case Failed => []
      case Results(items) => Cleaned(items)
  }

  method Search(query: string, provider: Provider) returns (docs: seq<Document>)
    ensures docs == Searched(query, provider)
  {
    if !LongEnough(query) {
      return [];
    }
    var response := provider(query, RequestedResults);
    match response {
      case Failed =>
        docs := [];
      case Results(items) =>
        docs := CleanSearchResults(items);
    }
  }
}
