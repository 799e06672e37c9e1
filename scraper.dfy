/**
 * The page extractor for the AI section of the TLDR newsletter
 * (`TLDRAIScraper`): which article containers become articles, how a
 * title gives up its "(N minute read)" annotation, how a date label is
 * read, which tags a title earns, and how an article becomes a `NewsItem`.
 *
 * The HTML parser is an input: a container is the part of an article's
 * `div` that the extractor looks at.
 */
module TldrScraper {
  import opened Wrappers
  import opened Text
  import opened Calendar
  import opened Urls
  import opened ReadTime
  import opened Models
  import opened ContentFetcher
  import Database

  const MaxArticlesPerScrape: nat := 20
  const MinTitleLength: nat := 10
  const Source: string := "TLDR AI"

  /**
   * One article container: the `href` of its link opened in a new window
   * whose `href` mentions `utm_source=tldrai`, the stripped text of its
   * `h3`, the stripped text of its date label and the `src` of its image
   * (`''` when the image has none), each `None` when the element is absent.
   */
  datatype Container = Container(href: Option<string>, heading: Option<string>, dateLabel: Option<string>,
                                 imageSrc: Option<string>)

  /** The dictionary `_extract_single_article` returns. */
  datatype Article = Article(title: string, summary: string, link: string, publishedDate: DateTime,
                             imageUrl: string, readTime: string, tags: seq<string>)

  // ----- titles -----

  /** A title split into its text and its read time. */
  datatype Titled = Titled(title: string, readTime: string)

  /**
   * The title and read time of a raw title: when `\((\d+\s+minute\s+read)\)`
   * occurs, the read time is the inside of its first occurrence and the
   * title loses every `\s*\(\d+\s+minute\s+read\)` and is stripped;
   * otherwise the title stays and the read time is `''`.
   */
  function TitleAndReadTime(raw: string): Titled {
    match Search(raw, 0, Parenthesised)
    case None => Titled(raw, "")
    case Some(span) =>
      SearchSpan(raw, 0);
      TitleAt(raw, span.start, span.end)
  }

  /** The title and read time of `raw` when its first annotation spans `start` to `end`. */
  function TitleAt(raw: string, start: nat, end: nat): Titled
    requires start + 1 <= end - 1 <= |raw|
  {
    Titled(Strip(RemoveAll(raw, false, false)), raw[start + 1..end - 1])
  }

  /** When there is an annotation, the read time is the inside of the first one and the title loses every annotation. */
  lemma {:induction false} TitleAndReadTimeFound(raw: string)
    requires Search(raw, 0, Parenthesised).Some?
    ensures var span := Search(raw, 0, Parenthesised).value;
      && span.start + 1 <= span.end - 1 <= |raw|
      && TitleAndReadTime(raw).title == Strip(RemoveAll(raw, false, false))
      && TitleAndReadTime(raw).readTime == raw[span.start + 1..span.end - 1]
  {
    SearchSpan(raw, 0);
    var span := Search(raw, 0, Parenthesised).value;
    TitleAtParts(raw, span.start, span.end);
  }

  lemma {:induction false} TitleAtParts(raw: string, start: nat, end: nat)
    requires start + 1 <= end - 1 <= |raw|
    ensures TitleAt(raw, start, end).title == Strip(RemoveAll(raw, false, false))
    ensures TitleAt(raw, start, end).readTime == raw[start + 1..end - 1]
  {
  }

  /** A title without `(` keeps its text and has no read time. */
  lemma {:induction false} PlainTitle(raw: string)
    requires '(' !in raw
    ensures TitleAndReadTime(raw) == Titled(raw, "")
  {
    if Search(raw, 0, Parenthesised).Some? {
      var k := Search(raw, 0, Parenthesised).value.start;
      BodyTokens();
      FirstLetter(raw, k, Parenthesised, false);
      assert false;
    }
  }

  /** In a title ending in an annotation, the search finds the annotation. */
  lemma {:induction false} AnnotationFound(x: string, p: string)
    requires '(' !in x && MatchFrom(p, 0, Parenthesised, false) == Some(|p|) && |p| >= 2
    ensures Search(x + p, 0, Parenthesised) == Some(Span(|x|, |x| + |p|))
  {
    SearchFinds(x, p);
  }

  /** Removing an annotation that ends the title, then stripping, leaves the text before it stripped. */
  lemma {:induction false} AnnotationRemoved(x: string, p: string)
    requires '(' !in x && MatchAt(p, false, false) == Some(|p|)
    ensures Strip(RemoveAll(x + p, false, false)) == Strip(x)
  {
    RemoveBeforeAnnotation(x, p, false, false);
    RemoveAllPlain(x, false, false);
    var r := RemoveAll(x + p, false, false);
    assert x == r + x[|r|..];
    StripSpaceSuffix(r, x[|r|..]);
  }

  lemma {:induction false} ParensInside(digits: string, gap1: string, minute: string, gap2: string, read: string)
    ensures var p := Parens(digits, gap1, minute, gap2, read);
      |p| >= 2 && p[1..|p| - 1] == digits + gap1 + minute + gap2 + read
  {
  }

  lemma {:induction false} InsideFinal(x: string, p: string)
    requires |p| >= 2
    ensures (x + p)[|x| + 1..|x| + |p| - 1] == p[1..|p| - 1]
  {
  }

  /** `Parens(...)` of a well-formed annotation is a whole match of both patterns. */
  lemma {:induction false} ParensMatchesBoth(digits: string, gap1: string, minute: string, gap2: string, read: string)
    requires WellFormed(digits, gap1, minute, gap2, read, false)
    ensures var p := Parens(digits, gap1, minute, gap2, read);
      MatchFrom(p, 0, Parenthesised, false) == Some(|p|) && MatchAt(p, false, false) == Some(|p|)
  {
    var p := Parens(digits, gap1, minute, gap2, read);
    ParensAlone(digits, gap1, minute, gap2, read, false);
    AnnotationMatches("", digits, gap1, minute, gap2, read, "", false, false);
    assert "" + p + "" == p;
  }

  /** The read time and title of a raw title whose first annotation spans `start` to `end`. */
  lemma {:induction false} TitleAndReadTimeAt(raw: string, start: nat, end: nat)
    requires start + 1 <= end - 1 <= |raw|
    requires Search(raw, 0, Parenthesised) == Some(Span(start, end))
    ensures TitleAndReadTime(raw).title == Strip(RemoveAll(raw, false, false))
    ensures TitleAndReadTime(raw).readTime == raw[start + 1..end - 1]
  {
    TitleAtParts(raw, start, end);
  }

  /** A title ending in a whole match `p` of both patterns: the search finds `p`, and removal leaves `x` up to spaces. */
  lemma {:induction false} AnnotationEnds(x: string, p: string)
    requires '(' !in x && |p| >= 2
    requires MatchFrom(p, 0, Parenthesised, false) == Some(|p|) && MatchAt(p, false, false) == Some(|p|)
    ensures Search(x + p, 0, Parenthesised) == Some(Span(|x|, |x| + |p|))
    ensures Strip(RemoveAll(x + p, false, false)) == Strip(x)
  {
    AnnotationFound(x, p);
    AnnotationRemoved(x, p);
  }

  // ----- dates -----

  /** The month abbreviations `strptime` accepts for `%b`, in lower case; it compares case-insensitively. */
  const MonthAbbreviations: seq<string> := ["jan", "feb", "mar", "apr", "may", "jun", "jul", "aug", "sep", "oct", "nov", "dec"]

  /** The number of the month `name` abbreviates, searched from entry `k` on. */
  function MonthFrom(name: string, k: nat): (m: Option<nat>)
    requires k <= |MonthAbbreviations|
    ensures m.Some? ==> k < m.value <= |MonthAbbreviations| && MonthAbbreviations[m.value - 1] == name
    ensures m.None? ==> forall j :: k <= j < |MonthAbbreviations| ==> MonthAbbreviations[j] != name
    decreases |MonthAbbreviations| - k
  {
    if k == |MonthAbbreviations| then None
    else if MonthAbbreviations[k] == name then Some(k + 1)
    else MonthFrom(name, k + 1)
  }

  /** `strptime(month, '%b').month`, `None` where it raises. */
  function MonthNumber(month: string): (m: Option<nat>)
    ensures m.Some? ==> 1 <= m.value <= 12 && MonthAbbreviations[m.value - 1] == Lower(month)
    ensures m.None? <==> Lower(month) !in MonthAbbreviations
  {
    MonthFrom(Lower(month), 0)
  }

  /** `int(day)` for one or two digits. */
  function DayValue(day: string): (n: nat)
    requires 1 <= |day| <= 2 && forall k :: 0 <= k < |day| ==> IsDigit(day[k])
    ensures n <= 99 && (|day| == 1 ==> n <= 9)
  {
    assert IsDigit(day[0]);
    var first := (day[0] as int) - ('0' as int);
    if |day| == 1 then first
    else
      assert IsDigit(day[1]);
      first * 10 + ((day[1] as int) - ('0' as int))
  }

  /** The two groups of a date: the month name and the day. */
  datatype MonthDay = MonthDay(month: string, day: string)

  /** The groups of `(\w{3})\s+(\d{1,2})` matched at `i`. */
  function DateAt(s: string, i: nat): (r: Option<MonthDay>)
    requires i <= |s|
    ensures r.Some? ==> |r.value.month| == 3 && 1 <= |r.value.day| <= 2
    ensures r.Some? ==> forall k :: 0 <= k < |r.value.day| ==> IsDigit(r.value.day[k])
  {
    if i + 3 <= |s| && IsWordChar(s[i]) && IsWordChar(s[i + 1]) && IsWordChar(s[i + 2]) then
      var j := SkipClass(s, i + 3, Space);
      if j > i + 3 && j < |s| && IsDigit(s[j]) then
        var e := if j + 1 < |s| && IsDigit(s[j + 1]) then j + 2 else j + 1;
        Some(MonthDay(s[i..i + 3], s[j..e]))
      else None
    else None
  }

  /** `re.search(r'(\w{3})\s+(\d{1,2})', s)` from `from` on: the leftmost match's groups. */
  function SearchDate(s: string, from: nat): (r: Option<MonthDay>)
    requires from <= |s|
    ensures r.Some? ==> |r.value.month| == 3 && 1 <= |r.value.day| <= 2
    ensures r.Some? ==> forall k :: 0 <= k < |r.value.day| ==> IsDigit(r.value.day[k])
    decreases |s| - from
  {
    match DateAt(s, from)
    case Some(g) => Some(g)
    case None => if from == |s| then None else SearchDate(s, from + 1)
  }

  /** What precedes the first `|` of a date label, stripped. */
  function DatePart(dateText: string): string {
    Strip(Split(dateText, '|')[0])
  }

  /**
   * The `try` block of `_parse_date` once the groups are found: the date of
   * `month` and `day` in the year of `now`, at midnight, or `now` when the
   * month is not an abbreviation or the day does not exist in that month.
   */
  function DateOfGroups(month: string, day: string, now: DateTime): (d: DateTime)
    requires 1 <= |day| <= 2 && forall k :: 0 <= k < |day| ==> IsDigit(day[k])
    ensures Lower(month) !in MonthAbbreviations ==> d == now
    ensures Lower(month) in MonthAbbreviations ==>
      var m := MonthNumber(month).value;
      && (ValidDate(now.year, m, DayValue(day)) ==> d == Midnight(now.year, m, DayValue(day)))
      && (!ValidDate(now.year, m, DayValue(day)) ==> d == now)
  {
    match MonthNumber(month)
    case None => now
    case Some(m) =>
      if ValidDate(now.year, m, DayValue(day)) then Midnight(now.year, m, DayValue(day)) else now
  }

  /**
   * `_parse_date(date_text)`: the month and day found in the date part, in
   * the year of `now`, at midnight; `now` itself when nothing is found,
   * the month is not an abbreviation, or the day does not exist.
   */
  function ParseDate(dateText: string, now: DateTime): (d: DateTime)
    ensures d == now || (d.year == now.year && ValidDate(d.year, d.month, d.day) && d.micros == 0)
  {
    match SearchDate(DatePart(dateText), 0)
    case None => now
    case Some(MonthDay(month, day)) => DateOfGroups(month, day, now)
  }

  /** A date part starting with `\w{3}\s+\d{1,2}` has its groups found at once. */
  lemma {:induction false} DateAtStart(month: string, gap: string, day: string, tail: string)
    requires |month| == 3 && forall k :: 0 <= k < 3 ==> IsWordChar(month[k])
    requires gap != [] && AllSpace(gap)
    requires 1 <= |day| <= 2 && forall k :: 0 <= k < |day| ==> IsDigit(day[k])
    requires |day| == 2 || tail == [] || !IsDigit(tail[0])
    ensures SearchDate(month + gap + day + tail, 0) == Some(MonthDay(month, day))
  {
    var s := month + gap + day + tail;
    assert s[..3] == month;
    forall k | 3 <= k < 3 + |gap| ensures InClass(s[k], Space) {
      assert s[k] == gap[k - 3];
    }
    assert s[3 + |gap|] == day[0];
    assert !IsSpace(day[0]);
    SkipClassOver(s, 3, |gap|, Space);
    var j := 3 + |gap|;
    if |day| == 2 {
      assert s[j + 1] == day[1];
    } else if tail != [] {
      assert s[j + 1] == tail[0];
    }
    assert s[j..j + |day|] == day;
  }

  /** The first piece of `front + rest`, split on `|`, is `front` when `rest` is empty or starts the next piece. */
  lemma {:induction false} FirstPiece(front: string, rest: string)
    requires '|' !in front && (rest == [] || rest[0] == '|')
    ensures Split(front + rest, '|')[0] == front
  {
    var s := front + rest;
    if rest == [] {
      assert s == front;
    } else {
      assert s[|front|] == '|';
      assert s[..|front|] == front;
      assert IndexOf(s, '|') == |front|;
    }
  }

  /** `month gap day` has no `|` and is its own strip. */
  lemma {:induction false} DateCore(month: string, gap: string, day: string)
    requires |month| == 3 && forall k :: 0 <= k < 3 ==> IsWordChar(month[k])
    requires AllSpace(gap)
    requires 1 <= |day| <= 2 && forall k :: 0 <= k < |day| ==> IsDigit(day[k])
    ensures '|' !in month + gap + day && Strip(month + gap + day) == month + gap + day
  {
    var core := month + gap + day;
    forall k | 0 <= k < |core| ensures core[k] != '|' {
      if k < 3 { assert IsWordChar(month[k]); }
      else if k < 3 + |gap| { assert IsSpace(gap[k - 3]); }
      else { assert IsDigit(day[k - 3 - |gap|]); }
    }
    assert core[0] == month[0] && !IsSpace(core[0]) by { assert IsWordChar(month[0]); }
    assert core[|core| - 1] == day[|day| - 1] && !IsSpace(core[|core| - 1]) by { assert IsDigit(day[|day| - 1]); }
    assert LStrip(core) == core;
    assert RStrip(core) == core;
  }

  lemma {:induction false} NoBarInSpace(w: string)
    requires AllSpace(w)
    ensures '|' !in w
  {
    forall k | 0 <= k < |w| ensures w[k] != '|' { assert IsSpace(w[k]); }
  }

  /** A stripped text without `|`, then spaces, then `|` or nothing: the date part is that text. */
  lemma {:induction false} DatePartOfPieces(core: string, sep: string, rest: string)
    requires '|' !in core && Strip(core) == core && AllSpace(sep)
    requires rest == [] || rest[0] == '|'
    ensures DatePart(core + sep + rest) == core
  {
    NoBarInSpace(sep);
    assert '|' !in core + sep;
    FirstPiece(core + sep, rest);
    StripSpaceSuffix(core, sep);
  }

  /**
   * A date label `core sep rest`, with `core` stripped and free of `|`,
   * `sep` whitespace and `rest` empty or starting at a `|`, whose `core`
   * gives the groups `month` and `day`, is read as that month and day (see
   * `DateOfGroups` for the date they give).  `DateCore` and `LabelGroups`
   * show that `Mmm DD` is such a core with the groups `Mmm` and `DD`.
   */
  lemma {:induction false} ParseDateOfCore(core: string, sep: string, rest: string, now: DateTime, month: string, day: string)
    requires '|' !in core && Strip(core) == core && AllSpace(sep)
    requires rest == [] || rest[0] == '|'
    requires SearchDate(core, 0) == Some(MonthDay(month, day))
    ensures 1 <= |day| <= 2 && forall k :: 0 <= k < |day| ==> IsDigit(day[k])
    ensures ParseDate(core + sep + rest, now) == DateOfGroups(month, day, now)
  {
    DatePartOfPieces(core, sep, rest);
  }

  /** The groups found in `Mmm DD` are the month and the day. */
  lemma {:induction false} LabelGroups(month: string, gap: string, day: string)
    requires |month| == 3 && forall k :: 0 <= k < 3 ==> IsWordChar(month[k])
    requires gap != [] && AllSpace(gap)
    requires 1 <= |day| <= 2 && forall k :: 0 <= k < |day| ==> IsDigit(day[k])
    ensures SearchDate(month + gap + day, 0) == Some(MonthDay(month, day))
  {
    DateAtStart(month, gap, day, []);
    assert month + gap + day + [] == month + gap + day;
  }

  // ----- tags -----

  const AiKeywords: seq<string> := [
    "ai", "artificial intelligence", "machine learning", "ml", "deep learning",
    "neural network", "chatgpt", "gpt", "llm", "large language model",
    "openai", "anthropic", "google", "microsoft", "meta", "nvidia",
    "automation", "robotics", "computer vision", "nlp",
    "generative ai", "stable diffusion", "midjourney", "dall-e",
    "transformer", "bert", "claude", "gemini", "cursor"]

  /** The tags found after `found`, trying `keywords` from index `i` on against the lower-cased text. */
  function TagsFrom(lowered: string, keywords: seq<string>, i: nat, found: seq<string>): seq<string>
    requires i <= |keywords|
    decreases |keywords| - i
  {
    if i == |keywords| then found
    else
      var tag := TitleCase(keywords[i]);
      TagsFrom(lowered, keywords, i + 1, if Contains(lowered, keywords[i]) && tag !in found then found + [tag] else found)
  }

  /** `_extract_ai_tags(text)`. */
  function AiTags(text: string): seq<string> {
    TagsFrom(Lower(text), AiKeywords, 0, ["AI"])
  }

  /** The titled keywords from index `i` on that occur in `lowered`, in vocabulary order, repeats included. */
  function Matching(lowered: string, keywords: seq<string>, i: nat): seq<string>
    requires i <= |keywords|
    decreases |keywords| - i
  {
    if i == |keywords| then []
    else (if Contains(lowered, keywords[i]) then [TitleCase(keywords[i])] else []) + Matching(lowered, keywords, i + 1)
  }

  predicate NoDuplicates<T(==)>(xs: seq<T>) {
    forall i, j :: 0 <= i < j < |xs| ==> xs[i] != xs[j]
  }

  /** `xs` is `ys` with some elements left out. */
  predicate Subsequence<T(==)>(xs: seq<T>, ys: seq<T>)
    decreases |ys|
  {
    xs == [] || (ys != [] && ((xs[0] == ys[0] && Subsequence(xs[1..], ys[1..])) || Subsequence(xs, ys[1..])))
  }

  lemma {:induction false} SubsequenceMembers<T>(xs: seq<T>, ys: seq<T>)
    requires Subsequence(xs, ys)
    ensures forall x :: x in xs ==> x in ys
    decreases |ys|
  {
    if xs != [] {
      if xs[0] == ys[0] && Subsequence(xs[1..], ys[1..]) {
        SubsequenceMembers(xs[1..], ys[1..]);
        forall x | x in xs ensures x in ys {
          if x != xs[0] { assert x in xs[1..]; }
        }
      } else {
        SubsequenceMembers(xs, ys[1..]);
      }
    }
  }

  lemma {:induction false} MatchingMembers(lowered: string, keywords: seq<string>, i: nat, t: string)
    requires i <= |keywords|
    ensures t in Matching(lowered, keywords, i) <==>
      exists j :: i <= j < |keywords| && Contains(lowered, keywords[j]) && t == TitleCase(keywords[j])
    decreases |keywords| - i
  {
    if i < |keywords| {
      MatchingMembers(lowered, keywords, i + 1, t);
    }
  }

  /** A fresh tag keeps a list without repeats free of them. */
  lemma {:induction false} AppendFresh(found: seq<string>, tag: string)
    requires NoDuplicates(found) && tag !in found
    ensures NoDuplicates(found + [tag])
  {
    var next := found + [tag];
    forall i, j | 0 <= i < j < |next| ensures next[i] != next[j] {
      if j == |found| { assert next[i] in found; }
    }
  }

  /**
   * Keyword tagging keeps what was found, adds each titled keyword that
   * occurs in the text and is not there yet, in vocabulary order, and adds
   * nothing else.
   */
  lemma {:induction false} TagsFromShape(lowered: string, keywords: seq<string>, i: nat, found: seq<string>)
    requires i <= |keywords| && NoDuplicates(found)
    ensures var r := TagsFrom(lowered, keywords, i, found);
      && found <= r && NoDuplicates(r)
      && Subsequence(r[|found|..], Matching(lowered, keywords, i))
      && (forall t :: t in Matching(lowered, keywords, i) ==> t in r)
    decreases |keywords| - i
  {
    var r := TagsFrom(lowered, keywords, i, found);
    if i == |keywords| {
      assert r[|found|..] == [];
    } else {
      var tag := TitleCase(keywords[i]);
      var rest := Matching(lowered, keywords, i + 1);
      if Contains(lowered, keywords[i]) && tag !in found {
        var next := found + [tag];
        AppendFresh(found, tag);
        TagsFromShape(lowered, keywords, i + 1, next);
        assert r[|found|] == tag;
        assert r[|found|..][1..] == r[|next|..];
        assert Matching(lowered, keywords, i) == [tag] + rest;
        assert ([tag] + rest)[1..] == rest;
        forall t | t in Matching(lowered, keywords, i) ensures t in r {
          if t != tag { assert t in rest; }
        }
      } else {
        TagsFromShape(lowered, keywords, i + 1, found);
        if Contains(lowered, keywords[i]) {
          assert Matching(lowered, keywords, i) == [tag] + rest;
          assert ([tag] + rest)[1..] == rest;
          assert tag in r by { assert tag in found; }
          forall t | t in Matching(lowered, keywords, i) ensures t in r {
            if t != tag { assert t in rest; }
          }
        } else {
          assert Matching(lowered, keywords, i) == rest;
        }
      }
    }
  }

  /**
   * Tagging a text from `AI`: `AI` first, no tag twice, and after it the
   * titled keywords that occur in the lower-cased text, each once, in
   * vocabulary order, and nothing else.
   */
  lemma {:induction false} KeywordTagsShape(text: string, keywords: seq<string>)
    ensures var r := TagsFrom(Lower(text), keywords, 0, ["AI"]);
      && |r| >= 1 && r[0] == "AI" && NoDuplicates(r)
      && Subsequence(r[1..], Matching(Lower(text), keywords, 0))
      && (forall i :: 1 <= i < |r| ==>
            exists j :: 0 <= j < |keywords| && Contains(Lower(text), keywords[j]) && r[i] == TitleCase(keywords[j]))
      && (forall j :: 0 <= j < |keywords| && Contains(Lower(text), keywords[j]) && TitleCase(keywords[j]) != "AI" ==>
            TitleCase(keywords[j]) in r[1..])
  {
    var l := Lower(text);
    var r := TagsFrom(l, keywords, 0, ["AI"]);
    TagsFromShape(l, keywords, 0, ["AI"]);
    assert r[0] == "AI";
    SubsequenceMembers(r[1..], Matching(l, keywords, 0));
    forall i | 1 <= i < |r|
      ensures exists j :: 0 <= j < |keywords| && Contains(l, keywords[j]) && r[i] == TitleCase(keywords[j])
    {
      assert r[i] in r[1..];
      MatchingMembers(l, keywords, 0, r[i]);
    }
    forall j | 0 <= j < |keywords| && Contains(l, keywords[j]) && TitleCase(keywords[j]) != "AI"
      ensures TitleCase(keywords[j]) in r[1..]
    {
      MatchingMembers(l, keywords, 0, TitleCase(keywords[j]));
      var k :| 0 <= k < |r| && r[k] == TitleCase(keywords[j]);
      assert r[k] == r[1..][k - 1];
    }
  }

  /** The tags of a text start with `AI` and hold no tag twice. */
  lemma {:induction false} AiTagsShape(text: string)
    ensures |AiTags(text)| >= 1 && AiTags(text)[0] == "AI" && NoDuplicates(AiTags(text))
  {
    KeywordTagsShape(text, AiKeywords);
  }

  /** A keyword `ai` first titles to `Ai`, which the check against `AI` lets through: both tags appear. */
  lemma {:induction false} AiKeywordTitled(text: string, keywords: seq<string>)
    requires keywords != [] && keywords[0] == "ai" && Contains(Lower(text), "ai")
    ensures var r := TagsFrom(Lower(text), keywords, 0, ["AI"]); |r| >= 2 && r[..2] == ["AI", "Ai"]
  {
    var l := Lower(text);
    assert TitleCase("ai") == "Ai";
    var found := ["AI", "Ai"];
    assert "Ai" != "AI" by { assert "Ai"[1] != "AI"[1]; }
    assert ["AI"] + [TitleCase(keywords[0])] == found;
    assert TagsFrom(l, keywords, 0, ["AI"]) == TagsFrom(l, keywords, 1, found);
    assert NoDuplicates(found);
    TagsFromShape(l, keywords, 1, found);
  }

  /** So a text mentioning `ai` is tagged both `AI` and `Ai`. */
  lemma {:induction false} AiAndAiTitled(text: string)
    requires Contains(Lower(text), "ai")
    ensures |AiTags(text)| >= 2 && AiTags(text)[..2] == ["AI", "Ai"]
  {
    AiKeywordTitled(text, AiKeywords);
  }

  /** `_extract_ai_tags(text)`: `AI`, then every titled keyword found in the text and not yet present. */
  method ExtractAiTags(text: string) returns (tags: seq<string>)
    ensures tags == AiTags(text)
  {
    var lowered := Lower(text);
    tags := ["AI"];
    var i := 0;
    while i < |AiKeywords|
      invariant i <= |AiKeywords|
      invariant TagsFrom(lowered, AiKeywords, i, tags) == AiTags(text)
    {
      var keyword := AiKeywords[i];
      if Contains(lowered, keyword) && TitleCase(keyword) !in tags {
        tags := tags + [TitleCase(keyword)];
      }
      i := i + 1;
    }
  }

  // ----- articles -----

  /** The case-sensitive `href.startswith('http')`. */
  predicate StartsHttp(href: string) {
    |href| >= 4 && href[..4] == "http"
  }

  /** `urljoin(base_url, href)` unless `href` starts with `http`. */
  function AbsoluteLink(href: string): string {
    if StartsHttp(href) then href else ResolveLink(href)
  }

  /**
   * `urljoin` parses `href` first, so it raises `ValueError` exactly where
   * `urlparse(href)` does: an authority with a `[` and no `]` or the reverse.
   */
  predicate JoinRaises(href: string) {
    !StartsHttp(href) && Netloc(href).None?
  }

  /**
   * The container is rejected: no link, an empty `href`, an `href` on which
   * `urljoin` raises (caught, and `None` returned), no heading, or a heading
   * under ten characters.
   */
  predicate Rejected(c: Container) {
    || c.href.None? || c.href.value == "" || JoinRaises(c.href.value)
    || c.heading.None? || |c.heading.value| < MinTitleLength
  }

  /** A relative `//[host…` with no closing bracket makes `urljoin` raise, so its container is skipped. */
  lemma {:induction false} BracketHrefRejected(host: string, path: string, heading: Option<string>,
                                               dateLabel: Option<string>, imageSrc: Option<string>)
    requires IsPlainAuthority(host) && IsPathPart(path)
    ensures JoinRaises("//[" + host + path)
    ensures Rejected(Container(Some("//[" + host + path), heading, dateLabel, imageSrc))
  {
    var href := "//[" + host + path;
    assert href[0] == '/' && !StartsHttp(href);
    BracketRelativeRaises(host, path);
  }

  /** What `_extract_single_article(container)` returns. */
  function SingleArticle(c: Container, now: DateTime): Option<Article> {
    if Rejected(c) then None
    else
      var titled := TitleAndReadTime(c.heading.value);
      var date := if c.dateLabel.Some? then ParseDate(c.dateLabel.value, now) else now;
      var image := if c.imageSrc.Some? then c.imageSrc.value else "";
      Some(Article(titled.title, titled.title, AbsoluteLink(c.href.value), date, image, titled.readTime, AiTags(titled.title)))
  }

  /**
   * A container gives an article exactly when it is not rejected; the
   * length test is on the raw heading, the summary is the final title and
   * the tags are those of the final title.
   */
  lemma {:induction false} SingleArticleShape(c: Container, now: DateTime)
    ensures SingleArticle(c, now).None? <==> Rejected(c)
    ensures SingleArticle(c, now).Some? ==>
      var a := SingleArticle(c, now).value;
      && |c.heading.value| >= MinTitleLength
      && Titled(a.title, a.readTime) == TitleAndReadTime(c.heading.value)
      && a.summary == a.title && a.tags == AiTags(a.title) && |a.tags| >= 1 && a.tags[0] == "AI"
      && (a.publishedDate == now || (a.publishedDate.year == now.year && a.publishedDate.micros == 0))
  {
    if SingleArticle(c, now).Some? {
      AiTagsShape(SingleArticle(c, now).value.title);
    }
  }

  /** `_extract_single_article(container)`. */
  method ExtractSingleArticle(c: Container, now: DateTime) returns (article: Option<Article>)
    ensures article == SingleArticle(c, now)
  {
    if c.href.None? {
      return None;
    }
    var href := c.href.value;
    if href == "" {
      return None;
    }
    if JoinRaises(href) {
      return None;
    }
    var link := AbsoluteLink(href);
    if c.heading.None? {
      return None;
    }
    var title := c.heading.value;
    if |title| < MinTitleLength {
      return None;
    }
    var publishedDate := now;
    if c.dateLabel.Some? {
      publishedDate := ParseDate(c.dateLabel.value, now);
    }
    var imageUrl := "";
    if c.imageSrc.Some? {
      imageUrl := c.imageSrc.value;
    }
    var titled := TitleAndReadTime(title);
    title := titled.title;
    var tags := ExtractAiTags(title);
    article := Some(Article(title, title, link, publishedDate, imageUrl, titled.readTime, tags));
  }

  /** What `_extract_single_article` gives for each container, in container order. */
  function Outcomes(cs: seq<Container>, now: DateTime): (rs: seq<Option<Article>>)
    ensures |rs| == |cs|
  {
    seq(|cs|, i requires 0 <= i < |cs| => SingleArticle(cs[i], now))
  }

  /** The articles among the outcomes, in order. */
  function Present(rs: seq<Option<Article>>): seq<Article> {
    if rs == [] then []
    else
      var front := Present(rs[..|rs| - 1]);
      match rs[|rs| - 1]
      case Some(a) => front + [a]
      case None => front
  }

  /** The articles of all the containers, in container order. */
  function Collected(cs: seq<Container>, now: DateTime): seq<Article> {
    Present(Outcomes(cs, now))
  }

  /** The outcomes of a prefix of the containers are a prefix of the outcomes. */
  lemma {:induction false} OutcomesPrefix(cs: seq<Container>, n: nat, now: DateTime)
    requires n <= |cs|
    ensures Outcomes(cs[..n], now) == Outcomes(cs, now)[..n]
  {
    var rs, qs := Outcomes(cs[..n], now), Outcomes(cs, now)[..n];
    forall i | 0 <= i < n ensures rs[i] == qs[i] {
      assert cs[..n][i] == cs[i];
    }
  }

  /** The articles of a prefix of the outcomes are a prefix of the articles of all. */
  lemma {:induction false} PresentPrefix(rs: seq<Option<Article>>, n: nat)
    requires n <= |rs|
    ensures Present(rs[..n]) <= Present(rs)
    decreases |rs| - n
  {
    if n < |rs| {
      PresentPrefix(rs[..|rs| - 1], n);
      assert rs[..|rs| - 1][..n] == rs[..n];
    } else {
      assert rs[..n] == rs;
    }
  }

  /** One more outcome adds its article, if it has one. */
  lemma {:induction false} PresentStep(rs: seq<Option<Article>>, i: nat)
    requires i < |rs|
    ensures rs[i].Some? ==> Present(rs[..i + 1]) == Present(rs[..i]) + [rs[i].value]
    ensures rs[i].None? ==> Present(rs[..i + 1]) == Present(rs[..i])
  {
    assert rs[..i + 1][..i] == rs[..i];
  }

  /** The articles of a prefix of the containers are a prefix of the articles of all. */
  lemma {:induction false} CollectedPrefix(cs: seq<Container>, n: nat, now: DateTime)
    requires n <= |cs|
    ensures Collected(cs[..n], now) <= Collected(cs, now)
  {
    OutcomesPrefix(cs, n, now);
    PresentPrefix(Outcomes(cs, now), n);
  }

  /** A prefix of the containers holding twenty articles holds the first twenty of all. */
  lemma {:induction false} CappedPrefix(cs: seq<Container>, n: nat, now: DateTime)
    requires n <= |cs| && |Collected(cs[..n], now)| == MaxArticlesPerScrape
    ensures Collected(cs[..n], now) ==
      if |Collected(cs, now)| <= MaxArticlesPerScrape then Collected(cs, now) else Collected(cs, now)[..MaxArticlesPerScrape]
  {
    CollectedPrefix(cs, n, now);
  }

  /** The extraction of container `i`, seen as outcome `i`. */
  method NextOutcome(cs: seq<Container>, i: nat, now: DateTime, ghost rs: seq<Option<Article>>)
    returns (article: Option<Article>)
    requires i < |cs| && rs == Outcomes(cs, now)
    ensures article == rs[i]
  {
    article := ExtractSingleArticle(cs[i], now);
  }

  /**
   * `_extract_articles_from_ai_section`: the articles of the containers in
   * order, at most twenty; `scanned` containers are examined, all of them
   * unless the twentieth article is found first, when scanning stops at it.
   */
  method ExtractArticles(cs: seq<Container>, now: DateTime) returns (articles: seq<Article>, scanned: nat)
    ensures |articles| <= MaxArticlesPerScrape
    ensures articles == if |Collected(cs, now)| <= MaxArticlesPerScrape then Collected(cs, now)
                        else Collected(cs, now)[..MaxArticlesPerScrape]
    ensures scanned <= |cs| && articles == Collected(cs[..scanned], now)
    ensures |articles| < MaxArticlesPerScrape ==> scanned == |cs|
    ensures |articles| == MaxArticlesPerScrape ==> scanned >= 1 && SingleArticle(cs[scanned - 1], now).Some?
  {
    ghost var rs := Outcomes(cs, now);
    articles := [];
    var i := 0;
    while i < |cs|
      invariant i <= |cs| && articles == Present(rs[..i]) && |articles| < MaxArticlesPerScrape
    {
      var article := NextOutcome(cs, i, now, rs);
      PresentStep(rs, i);
      if article.Some? {
        articles := articles + [article.value];
        if |articles| >= MaxArticlesPerScrape {
          scanned := i + 1;
          OutcomesPrefix(cs, scanned, now);
          CappedPrefix(cs, scanned, now);
          return;
        }
      }
      i := i + 1;
    }
    scanned := |cs|;
    assert rs[..|cs|] == rs;
    assert cs[..|cs|] == cs;
  }

  /**
   * `_create_news_item(article)`: with fetching enabled, the cleaned
   * content of a successful extraction becomes the content and its content
   * type is added to the tags; otherwise the content is empty and the tags
   * are the article's.  `extraction` is what the fetcher returned, if it ran.
   */
  method CreateNewsItem(article: Article, fetchContent: bool, remote: nat -> Attempt)
    returns (item: NewsItem, extraction: Option<Extraction>, requests: nat)
    ensures fresh(item)
    ensures item.title == article.title && item.summary == article.summary && item.link == article.link
    ensures item.source == Source && item.publishedDate == article.publishedDate
    ensures item.imageUrl == article.imageUrl && item.readTime == article.readTime && item.TagsInStep()
    ensures extraction.None? <==> !fetchContent
    ensures extraction.None? ==> item.content == "" && item.Tags() == article.tags && requests == 0
    ensures extraction.Some? && !extraction.value.success ==> item.content == "" && item.Tags() == article.tags
    ensures extraction.Some? && extraction.value.success ==>
      && item.content == extraction.value.cleanedContent
      && item.Tags() == article.tags + [extraction.value.contentType]
      && extraction.value.contentType in ContentTypes
    ensures extraction.Some? ==> (extraction.value.success <==> ExtractionSucceeds(article.link, remote))
  {
    var content := "";
    var tags := article.tags;
    requests := 0;
    extraction := None;
    if fetchContent {
      var result;
      result, requests := ExtractContent(article.link, remote);
      extraction := Some(result);
      if result.success {
        content := result.cleanedContent;
        if result.contentType != "unknown" {
          tags := tags + [result.contentType];
        }
      }
    }
    item := new NewsItem(article.title, article.summary, article.link, Source, article.publishedDate,
                         content, tags, article.imageUrl, article.readTime);
  }

  /**
   * `save_to_database(collection)`: the statistics of the batch save, or,
   * when the batch raises, the fallback that counts every item as an error.
   * `raisesAt` is `Some(k)` when it raises after the first `k` items were
   * handled (a session that cannot be opened, say); those items' commits are
   * kept, since each item commits on its own.  `committed` is the tally of
   * the items handled, which the fallback statistics hide.
   */
  method SaveToDatabase(db: Database.DatabaseManager, collection: NewsCollection, now: DateTime,
                        queryFails: nat -> bool, commitError: nat -> Database.CommitTexts, raisesAt: Option<nat>)
    returns (stats: Database.Stats, ghost committed: Database.Stats)
    requires db.Valid()
    modifies db`linkCache, db`titleHashCache, db`rows, collection.items
    ensures db.Valid()
    ensures old(db.rows) <= db.rows && old(db.linkCache) <= db.linkCache && old(db.titleHashCache) <= db.titleHashCache
    ensures raisesAt.Some? ==>
      && stats == Database.FallbackStats(|collection.items|)
      && |db.rows| <= |old(db.rows)| + raisesAt.value
    ensures raisesAt.None? ==> committed == stats
    ensures var handled := if raisesAt.Some? && raisesAt.value < |collection.items| then raisesAt.value
                           else |collection.items|;
      && committed.total == handled && Database.Tallied(committed)
      && Database.Describes(committed.processedItems, collection.items, handled)
      && |db.rows| == |old(db.rows)| + committed.saved
      && Database.LinksOf(db.rows[|old(db.rows)|..]) == Database.SavedLinks(committed.processedItems)
  {
    var items := collection.items;
    if raisesAt.Some? {
      var handled := if raisesAt.value <= |items| then raisesAt.value else |items|;
      var partial := db.SaveNewsItems(items[..handled], now, queryFails, commitError);
      Database.SavedLinksCount(partial.processedItems);
      committed := partial;
      return Database.FallbackStats(|items|), committed;
    }
    stats := db.SaveNewsItems(items, now, queryFails, commitError);
    committed := stats;
  }
}
