/**
 * The domain model: a news article (`NewsItem`, which is also the row type
 * of the `news_items` table) and a collection of articles gathered from
 * one source at one time (`NewsCollection`).
 *
 * A `NewsItem` keeps its tags twice: as a list (`_tags`, here `tagsList`),
 * present on an item built by the application, and as the comma-joined
 * `tags` column (`tagsStr`).  An item loaded from the store has only the
 * column, and its `tags` getter splits that.
 */
module Models {
  import opened Wrappers
  import opened Text
  import opened Calendar
  import opened Urls
  import Sorting

  /** One row of the `news_items` table, as the store keeps it. */
  datatype Row = Row(
    title: string, summary: string, link: string, source: string,
    publishedDate: DateTime, content: string, tags: string,
    imageUrl: string, readTime: string,
    titleHash: string, contentHash: string, domain: string,
    createdAt: DateTime)

  /** What `to_dict` returns. */
  datatype ItemDict = ItemDict(
    title: string, summary: string, link: string, source: string,
    publishedDate: DateTime, content: string, tags: string,
    imageUrl: string, readTime: string)

  /** No tag holds the separator of the `tags` column. */
  predicate CommaFree(tags: seq<string>) {
    forall i :: 0 <= i < |tags| ==> ',' !in tags[i]
  }

  /** The `tags` column written for a list: its comma-join, `''` for no tags. */
  function TagsColumn(tags: seq<string>): (s: string)
    ensures s == "" <==> (tags == [] || tags == [""])
  {
    JoinEmpty(tags, ',');
    if tags == [] then "" else Join(tags, ',')
  }

  /** The list the getter reads back from a column: `[]` for `''`, else the comma-split. */
  function TagsFromColumn(s: string): (tags: seq<string>)
    ensures tags == [] <==> s == ""
    ensures CommaFree(tags)
  {
    if s == "" then [] else Split(s, ',')
  }

  /** Writing a list to the column and reading it back gives the list again. */
  lemma {:induction false} TagsRoundTrip(tags: seq<string>)
    requires CommaFree(tags) && tags != [""]
    ensures TagsFromColumn(TagsColumn(tags)) == tags
  {
    if tags != [] {
      SplitJoin(tags, ',');
    }
  }

  /** ... except for a single empty tag, which the column cannot tell from no tags. */
  lemma {:induction false} EmptyTagIsLost()
    ensures TagsColumn([""]) == "" && TagsFromColumn(TagsColumn([""])) == []
  {
  }

  /** A tag holding a comma comes back as two tags. */
  lemma {:induction false} CommaSplitsTag()
    ensures TagsFromColumn(TagsColumn(["a,b"])) == ["a", "b"]
  {
    var s := TagsColumn(["a,b"]);
    assert s == "a,b";
    assert IndexOf(s, ',') == 1;
    assert s[..1] == "a" && s[2..] == "b";
    assert ',' !in "b";
    assert Split("b", ',') == ["b"];
    assert Split(s, ',') == ["a"] + Split("b", ',');
  }

  class NewsItem {
    // The fields an item is built with are never reassigned by the pipeline.
    const title: string
    const summary: string
    const link: string
    const source: string
    const publishedDate: DateTime
    const content: string
    /** `_tags`: the list set through the setter; `None` on an item loaded from the store. */
    var tagsList: Option<seq<string>>
    /** The `tags` column. */
    var tagsStr: string
    const imageUrl: string
    const readTime: string
    /** The duplicate-detection columns, empty until the store sets them. */
    var titleHash: string
    var contentHash: string
    var domainField: string

    /** `NewsItem(title, summary, link, source, published_date, content, tags, image_url, read_time)`; a `None` list is `[]`. */
    constructor (title: string, summary: string, link: string, source: string, publishedDate: DateTime,
                 content: string, tags: seq<string>, imageUrl: string, readTime: string)
      ensures this.title == title && this.summary == summary && this.link == link && this.source == source
      ensures this.publishedDate == publishedDate && this.content == content
      ensures this.imageUrl == imageUrl && this.readTime == readTime
      ensures Tags() == tags && tagsStr == TagsColumn(tags) && TagsInStep()
      ensures titleHash == "" && contentHash == "" && domainField == ""
    {
      this.title := title;
      this.summary := summary;
      this.link := link;
      this.source := source;
      this.publishedDate := publishedDate;
      this.content := content;
      this.tagsList := Some(tags);
      this.tagsStr := TagsColumn(tags);
      this.imageUrl := imageUrl;
      this.readTime := readTime;
      this.titleHash := "";
      this.contentHash := "";
      this.domainField := "";
    }

    /** An item loaded from a row of the store: the column is set, the list is not. */
    constructor FromRow(r: Row)
      ensures title == r.title && summary == r.summary && link == r.link && source == r.source
      ensures publishedDate == r.publishedDate && content == r.content
      ensures imageUrl == r.imageUrl && readTime == r.readTime
      ensures tagsList == None && tagsStr == r.tags && Tags() == TagsFromColumn(r.tags)
      ensures titleHash == r.titleHash && contentHash == r.contentHash && domainField == r.domain
    {
      title := r.title;
      summary := r.summary;
      link := r.link;
      source := r.source;
      publishedDate := r.publishedDate;
      content := r.content;
      tagsList := None;
      tagsStr := r.tags;
      imageUrl := r.imageUrl;
      readTime := r.readTime;
      titleHash := r.titleHash;
      contentHash := r.contentHash;
      domainField := r.domain;
    }

    /** The `tags` getter: the list if one was set, else the split column. */
    function Tags(): seq<string>
      reads this
    {
      match tagsList
      case Some(t) => t
      case None => TagsFromColumn(tagsStr)
    }

    /** The column holds the join of the list, whenever there is a list. */
    predicate TagsInStep()
      reads this
    {
      tagsList.Some? ==> tagsStr == TagsColumn(tagsList.value)
    }

    /** The `tags` setter: stores the list and its join; `None` is `[]`. */
    method SetTags(value: seq<string>)
      modifies this`tagsList, this`tagsStr
      ensures Tags() == value && tagsStr == TagsColumn(value) && TagsInStep()
    {
      tagsList := Some(value);
      tagsStr := TagsColumn(value);
    }

    /** The `domain` getter: the netloc of the link as written, `''` when the link cannot be parsed. */
    function Domain(): (d: string)
      reads this
      ensures Netloc(link).None? ==> d == ""
    {
      match Netloc(link)
      case Some(n) => n
      case None => ""
    }

    /** The `domain` setter writes the column and nothing else. */
    method SetDomain(value: string)
      modifies this`domainField
      ensures domainField == value
    {
      domainField := value;
    }

    /** `to_dict()`: the fields the store is given, the tags as their column. */
    function ToDict(): (d: ItemDict)
      reads this
      ensures d.tags == "" <==> (Tags() == [] || Tags() == [""])
      ensures (d.title, d.summary, d.link, d.source, d.publishedDate, d.content, d.imageUrl, d.readTime) ==
              (title, summary, link, source, publishedDate, content, imageUrl, readTime)
    {
      ItemDict(title, summary, link, source, publishedDate, content, TagsColumn(Tags()),
               imageUrl, readTime)
    }
  }

  /** The domain of a link `scheme://host/path` is `host`, case and all. */
  lemma {:induction false} DomainOfLink(item: NewsItem, scheme: string, host: string, path: string)
    requires IsScheme(scheme) && IsPlainAuthority(host) && IsPathPart(path)
    requires item.link == scheme + "://" + host + path
    ensures item.Domain() == host
  {
    NetlocOfUrl(scheme, host, path);
  }

  /** The tags of `to_dict()` read back as the item's tags. */
  lemma {:induction false} ToDictTags(item: NewsItem)
    requires CommaFree(item.Tags()) && item.Tags() != [""]
    ensures TagsFromColumn(item.ToDict().tags) == item.Tags()
  {
    TagsRoundTrip(item.Tags());
  }

  /** An item whose list and column agree reads back the same tags once reloaded from its column. */
  lemma {:induction false} ReloadKeepsTags(item: NewsItem)
    requires item.TagsInStep() && CommaFree(item.Tags()) && item.Tags() != [""]
    ensures TagsFromColumn(item.tagsStr) == item.Tags()
  {
    if item.tagsList.Some? {
      TagsRoundTrip(item.tagsList.value);
    }
  }

  // ----- collections -----

  /** The lower-cased tags: `[t.lower() for t in item.tags]`. */
  function LowerAll(tags: seq<string>): (r: seq<string>)
    ensures |r| == |tags| && forall i :: 0 <= i < |tags| ==> r[i] == Lower(tags[i])
  {
    seq(|tags|, i requires 0 <= i < |tags| => Lower(tags[i]))
  }

  /** Some query tag equals one of `tags` up to case. */
  predicate SharesTag(tags: seq<string>, query: seq<string>) {
    exists i :: 0 <= i < |query| && Lower(query[i]) in LowerAll(tags)
  }

  /** The items that share a tag with the query, in their order. */
  function Matching(items: seq<NewsItem>, query: seq<string>): seq<NewsItem>
    reads items
  {
    if items == [] then []
    else
      var last := items[|items| - 1];
      Matching(items[..|items| - 1], query) + (if SharesTag(last.Tags(), query) then [last] else [])
  }

  lemma {:induction false} MatchingMembers(items: seq<NewsItem>, query: seq<string>, x: NewsItem)
    ensures x in Matching(items, query) <==> x in items && SharesTag(x.Tags(), query)
  {
    if items != [] {
      var front := items[..|items| - 1];
      MatchingMembers(front, query, x);
      assert items == front + [items[|items| - 1]];
    }
  }

  /** Each item shares a tag with the query, or does not occur in the result at all. */
  lemma {:induction false} MatchingCount(items: seq<NewsItem>, query: seq<string>, x: NewsItem)
    ensures multiset(Matching(items, query))[x] == if SharesTag(x.Tags(), query) then multiset(items)[x] else 0
  {
    if items != [] {
      var front := items[..|items| - 1];
      MatchingCount(front, query, x);
      assert items == front + [items[|items| - 1]];
    }
  }

  /** The items paired with their publication instants. */
  function Dated(items: seq<NewsItem>): (ps: seq<(int, NewsItem)>)
    reads items
    ensures |ps| == |items|
    ensures forall i :: 0 <= i < |items| ==> ps[i] == (Ticks(items[i].publishedDate), items[i])
  {
    if items == [] then [] else [(Ticks(items[0].publishedDate), items[0])] + Dated(items[1..])
  }

  /** `sorted(items, key=published_date, reverse=descending)`. */
  function ByDate(items: seq<NewsItem>, descending: bool): seq<NewsItem>
    reads items
  {
    Sorting.Values(Sorting.Sort(Dated(items), descending))
  }

  /** The items published at instant `t`, in order. */
  function PublishedAt(items: seq<NewsItem>, t: int): seq<NewsItem>
    reads items
  {
    if items == [] then []
    else (if Ticks(items[0].publishedDate) == t then [items[0]] else []) + PublishedAt(items[1..], t)
  }

  /** Every pair carries its item's own publication instant. */
  predicate KeyedByDate(ps: seq<(int, NewsItem)>)
    reads set i | 0 <= i < |ps| :: ps[i].1
  {
    forall i :: 0 <= i < |ps| ==> ps[i].0 == Ticks(ps[i].1.publishedDate)
  }

  lemma {:induction false} SortKeepsKeys(ps: seq<(int, NewsItem)>, descending: bool)
    requires KeyedByDate(ps)
    ensures KeyedByDate(Sorting.Sort(ps, descending))
  {
    var r := Sorting.Sort(ps, descending);
    Sorting.SortSorted(ps, descending);
    forall i | 0 <= i < |r| ensures r[i].0 == Ticks(r[i].1.publishedDate) {
      assert r[i] in multiset(ps);
      var k :| 0 <= k < |ps| && ps[k] == r[i];
    }
  }

  lemma {:induction false} PublishedAtValues(ps: seq<(int, NewsItem)>, t: int)
    requires KeyedByDate(ps)
    ensures PublishedAt(Sorting.Values(ps), t) == Sorting.Values(Sorting.WithKey(ps, t))
  {
    if ps != [] {
      assert KeyedByDate(ps[1..]) by {
        forall i | 0 <= i < |ps[1..]| ensures ps[1..][i].0 == Ticks(ps[1..][i].1.publishedDate) {
          assert ps[1..][i] == ps[i + 1];
        }
      }
      PublishedAtValues(ps[1..], t);
      var vs := Sorting.Values(ps);
      assert vs[1..] == Sorting.Values(ps[1..]);
      Sorting.ValuesAppend(if ps[0].0 == t then [ps[0]] else [], Sorting.WithKey(ps[1..], t));
    }
  }

  lemma {:induction false} DatedKeyed(items: seq<NewsItem>)
    ensures KeyedByDate(Dated(items)) && Sorting.Values(Dated(items)) == items
  {
  }

  /** The sorted items are the same items, ordered by date, equal dates in their first order. */
  lemma {:induction false} ByDateSorted(items: seq<NewsItem>, descending: bool)
    ensures multiset(ByDate(items, descending)) == multiset(items)
    ensures var r := ByDate(items, descending);
      forall i, j :: 0 <= i < j < |r| ==> Sorting.Before(Ticks(r[i].publishedDate), Ticks(r[j].publishedDate), descending)
    ensures forall t :: PublishedAt(ByDate(items, descending), t) == PublishedAt(items, t)
  {
    var ps := Dated(items);
    var sorted := Sorting.Sort(ps, descending);
    var r := ByDate(items, descending);
    DatedKeyed(items);
    Sorting.SortValues(ps, descending);
    Sorting.SortSorted(ps, descending);
    SortKeepsKeys(ps, descending);
    forall i, j | 0 <= i < j < |r| ensures Sorting.Before(Ticks(r[i].publishedDate), Ticks(r[j].publishedDate), descending) {
      assert r[i] == sorted[i].1 && r[j] == sorted[j].1;
    }
    forall t ensures PublishedAt(r, t) == PublishedAt(items, t) {
      PublishedAtValues(sorted, t);
      PublishedAtValues(ps, t);
      Sorting.SortStable(ps, t, descending);
    }
  }

  class NewsCollection {
    var items: seq<NewsItem>
    var source: string
    var collectedAt: DateTime

    constructor (items: seq<NewsItem>, source: string, collectedAt: DateTime)
      ensures this.items == items && this.source == source && this.collectedAt == collectedAt
    {
      this.items := items;
      this.source := source;
      this.collectedAt := collectedAt;
    }

    /** `len(collection)`. */
    function Length(): (n: nat)
      reads this
      ensures n == |items|
    {
      |items|
    }

    /** `add_item`: one more item at the end, the others as they were. */
    method AddItem(item: NewsItem)
      modifies this`items
      ensures items == old(items) + [item]
      ensures Length() == old(Length()) + 1
    {
      items := items + [item];
    }

    /** `filter_by_tags`: a new collection of the items sharing a tag with the query. */
    method FilterByTags(query: seq<string>) returns (c: NewsCollection)
      ensures fresh(c)
      ensures c.items == Matching(items, query)
      ensures c.source == source && c.collectedAt == collectedAt
    {
      var filtered: seq<NewsItem> := [];
      var i := 0;
      while i < |items|
        invariant 0 <= i <= |items|
        invariant filtered == Matching(items[..i], query)
      {
        var item := items[i];
        assert items[..i + 1][..i] == items[..i];
        if SharesTag(item.Tags(), query) {
          filtered := filtered + [item];
        }
        i := i + 1;
      }
      assert items[..|items|] == items;
      c := new NewsCollection(filtered, source, collectedAt);
    }

    /** `sort_by_date`: a new collection of the items by date, newest first unless `ascending`. */
    method SortByDate(ascending: bool) returns (c: NewsCollection)
      ensures fresh(c)
      ensures c.items == ByDate(items, !ascending)
      ensures c.source == source && c.collectedAt == collectedAt
    {
      c := new NewsCollection(ByDate(items, !ascending), source, collectedAt);
    }
  }
}
