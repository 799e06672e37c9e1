/**
 * The decisions of `ContentFetcher`: which URLs are fetched, how often a
 * request is retried, which part of a page counts as its main content,
 * how that content is cleaned, and how the result record is filled in.
 *
 * The network and the HTML parser are inputs.  Attempt `n` of a fetch
 * yields `remote(n)`; a fetched page is a `Page`, the part of the parsed
 * document the fetcher reads.
 */
module ContentFetcher {
  import opened Wrappers
  import opened Text
  import opened Urls

  const MaxRetries: nat := 2
  const MaxContentLength: nat := 50000
  const TruncationMarker: string := "... [Content truncated]"
  const BlacklistedDomains: set<string> := {"minihf.com", "slow-site.com"}

  /** The CSS selectors tried for the main content, most specific first. */
  const Selectors: seq<string> := ["article", "main", ".content", ".post-content", ".entry-content", "#content", "body"]

  /**
   * A parsed page once scripts, styles, navigation, headers, footers,
   * asides, ads and iframes are removed: the text of its `<title>` tag if
   * it has one, the `content` attribute of its description meta tag (`''`
   * when the attribute is missing) if it has one, and the text of the first
   * element each CSS selector matches, for the selectors that match one.
   */
  datatype Page = Page(title: Option<string>, metaDescription: Option<string>, texts: map<string, string>)

  /** What one request yields: an HTTP answer, or the exception `requests` raises. */
  datatype Attempt = Answer(status: int, page: Page) | Timeout | ConnectionError | RequestFailed

  /** The request returns and `raise_for_status` does not raise. */
  predicate Succeeds(a: Attempt) {
    a.Answer? && !(400 <= a.status < 600)
  }

  // ----- fetching with retries -----

  /** The page of the first successful attempt from `attempt` on, if any of the allowed attempts succeeds. */
  function FetchedFrom(remote: nat -> Attempt, attempt: nat): Option<Page>
    decreases MaxRetries - attempt
  {
    if attempt >= MaxRetries then None
    else if Succeeds(remote(attempt)) then Some(remote(attempt).page)
    else FetchedFrom(remote, attempt + 1)
  }

  /** The response `_fetch_with_retries` returns. */
  function Fetched(remote: nat -> Attempt): Option<Page> {
    FetchedFrom(remote, 0)
  }

  /**
   * `_fetch_with_retries(url)`: up to `MaxRetries` requests, stopping at the
   * first that succeeds, with a pause after every failed one but the last;
   * `None` when all fail.
   */
  method FetchWithRetries(remote: nat -> Attempt) returns (response: Option<Page>, attempts: nat, pauses: nat)
    ensures response == Fetched(remote)
    ensures 1 <= attempts <= MaxRetries && pauses == attempts - 1
    ensures forall j :: 0 <= j < attempts - 1 ==> !Succeeds(remote(j))
    ensures response.Some? ==> Succeeds(remote(attempts - 1)) && response.value == remote(attempts - 1).page
    ensures response.None? ==> attempts == MaxRetries && !Succeeds(remote(attempts - 1))
  {
    attempts, pauses := 0, 0;
    var attempt: nat := 0;
    while attempt < MaxRetries
      invariant attempt <= MaxRetries && attempts == attempt
      invariant pauses == if attempt == 0 then 0 else attempt - 1 + (if attempt < MaxRetries then 1 else 0)
      invariant forall j :: 0 <= j < attempt ==> !Succeeds(remote(j))
      invariant Fetched(remote) == FetchedFrom(remote, attempt)
    {
      var outcome := remote(attempt);
      attempts := attempts + 1;
      if Succeeds(outcome) {
        return Some(outcome.page), attempts, pauses;
      }
      if attempt < MaxRetries - 1 {
        pauses := pauses + 1;
      }
      attempt := attempt + 1;
    }
    response := None;
  }

  // ----- main content -----

  /** The stripped text of the element `selector` matches, `''` when it matches none. */
  function SelectedText(page: Page, selector: string): string {
    if selector in page.texts then Strip(page.texts[selector]) else ""
  }

  /** `selector` matches an element whose stripped text has more than 100 words. */
  predicate Substantial(page: Page, selector: string) {
    selector in page.texts && WordCount(SelectedText(page, selector)) > 100
  }

  /** The last resort: the stripped text of the body, `''` without one. */
  function BodyText(page: Page): string {
    SelectedText(page, "body")
  }

  /** The main content as chosen by trying `selectors` in order. */
  function MainContentFrom(page: Page, selectors: seq<string>): string {
    if selectors == [] then BodyText(page)
    else if Substantial(page, selectors[0]) then SelectedText(page, selectors[0])
    else MainContentFrom(page, selectors[1..])
  }

  function MainContent(page: Page): string {
    MainContentFrom(page, Selectors)
  }

  /** Without a substantial selector, the body's text is chosen. */
  lemma {:induction false} MainContentFromBody(page: Page, selectors: seq<string>)
    requires forall j :: 0 <= j < |selectors| ==> !Substantial(page, selectors[j])
    ensures MainContentFrom(page, selectors) == BodyText(page)
  {
    if selectors != [] {
      assert !Substantial(page, selectors[0]);
      MainContentFromBody(page, selectors[1..]);
    }
  }

  /** The first substantial selector is the one chosen. */
  lemma {:induction false} MainContentFromSelected(page: Page, selectors: seq<string>, i: nat)
    requires i < |selectors| && Substantial(page, selectors[i])
    requires forall j :: 0 <= j < i ==> !Substantial(page, selectors[j])
    ensures MainContentFrom(page, selectors) == SelectedText(page, selectors[i])
  {
    if 0 < i {
      assert !Substantial(page, selectors[0]);
      MainContentFromSelected(page, selectors[1..], i - 1);
    }
  }

  /** The main content is the text of the first substantial selector, else the body's text. */
  lemma {:induction false} MainContentFirst(page: Page)
    ensures (forall j :: 0 <= j < |Selectors| ==> !Substantial(page, Selectors[j])) ==> MainContent(page) == BodyText(page)
    ensures forall i ::
      && 0 <= i < |Selectors| && Substantial(page, Selectors[i])
      && (forall j :: 0 <= j < i ==> !Substantial(page, Selectors[j]))
      ==> MainContent(page) == SelectedText(page, Selectors[i])
  {
    if forall j :: 0 <= j < |Selectors| ==> !Substantial(page, Selectors[j]) {
      MainContentFromBody(page, Selectors);
    }
    forall i | 0 <= i < |Selectors| && Substantial(page, Selectors[i]) && (forall j :: 0 <= j < i ==> !Substantial(page, Selectors[j]))
      ensures MainContent(page) == SelectedText(page, Selectors[i])
    {
      MainContentFromSelected(page, Selectors, i);
    }
  }

  /** `_extract_main_content(soup, domain)`: the selectors in order, the first with more than 100 words wins. */
  method ExtractMainContent(page: Page) returns (text: string)
    ensures text == MainContent(page)
  {
    var i := 0;
    while i < |Selectors|
      invariant i <= |Selectors|
      invariant MainContentFrom(page, Selectors[i..]) == MainContent(page)
    {
      var selector := Selectors[i];
      if Substantial(page, selector) {
        return SelectedText(page, selector);
      }
      assert Selectors[i..][1..] == Selectors[i + 1..];
      i := i + 1;
    }
    text := BodyText(page);
  }

  // ----- cleaning -----

  /**
   * `_clean_content(content)`: whitespace runs collapsed to one space, cut
   * to `MaxContentLength` characters with the marker appended when longer,
   * then stripped.  Collapsing leaves no line feed, so the substitution of
   * runs of blank lines that the source makes next finds nothing to replace
   * (`CollapsedNoNewline`).
   */
  function CleanContent(content: string): (r: string)
    ensures content == "" ==> r == ""
  {
    if content == "" then ""
    else
      var collapsed := CollapseWs(content);
      Strip(if |collapsed| > MaxContentLength then collapsed[..MaxContentLength] + TruncationMarker else collapsed)
  }

  lemma {:induction false} CollapsedNoNewline(content: string)
    ensures '\n' !in CollapseWs(content)
  {
    CollapseWsShape(content);
    SingleSpacedNoNewline(CollapseWs(content));
  }

  lemma {:induction false} MarkerSingleSpaced()
    ensures SingleSpaced(TruncationMarker)
    ensures TruncationMarker[0] == '.' && TruncationMarker[|TruncationMarker| - 1] == ']'
  {
    forall i | 0 <= i < |TruncationMarker| && IsSpace(TruncationMarker[i]) ensures TruncationMarker[i] == ' ' { }
  }

  /**
   * Cleaned content has no line feed and no two whitespace characters in a
   * row, is at most `MaxContentLength` characters plus the marker, is the
   * stripped collapsed text when that fits, and otherwise its first
   * `MaxContentLength` characters, less a leading space, then the marker.
   * Its characters other than whitespace are those of `content`, all of
   * them when nothing is cut, and otherwise a prefix of them followed by the
   * marker's.
   */
  lemma {:induction false} CleanContentShape(content: string)
    ensures var r := CleanContent(content);
      && '\n' !in r && SingleSpaced(r)
      && |r| <= MaxContentLength + |TruncationMarker|
      && (|CollapseWs(content)| <= MaxContentLength ==> r == Strip(CollapseWs(content)))
      && (|CollapseWs(content)| > MaxContentLength ==>
            r == LStrip(CollapseWs(content)[..MaxContentLength]) + TruncationMarker)
      && (|CollapseWs(content)| <= MaxContentLength ==> NonSpace(r) == NonSpace(content))
      && (|CollapseWs(content)| > MaxContentLength ==>
            var kept := NonSpace(CollapseWs(content)[..MaxContentLength]);
            kept <= NonSpace(content) && NonSpace(r) == kept + NonSpace(TruncationMarker))
  {
    CleanContentForm(content);
    CleanKeepsText(content);
  }

  /** The form of the cleaned content: its whitespace, its length and how it is cut. */
  lemma {:induction false} CleanContentForm(content: string)
    ensures var r := CleanContent(content);
      && '\n' !in r && SingleSpaced(r)
      && |r| <= MaxContentLength + |TruncationMarker|
      && (|CollapseWs(content)| <= MaxContentLength ==> r == Strip(CollapseWs(content)))
      && (|CollapseWs(content)| > MaxContentLength ==>
            r == LStrip(CollapseWs(content)[..MaxContentLength]) + TruncationMarker)
  {
    var r := CleanContent(content);
    if content != "" {
      var c := CollapseWs(content);
      CollapseWsShape(content);
      if |c| > MaxContentLength {
        var x := c[..MaxContentLength];
        SingleSpacedSlice(c, 0, MaxContentLength);
        MarkerSingleSpaced();
        SingleSpacedConcat(x, TruncationMarker);
        StripSingleSpaced(x + TruncationMarker);
        assert !AllSpace(x) by {
          assert !(IsSpace(x[0]) && IsSpace(x[1]));
        }
        LStripAppend(x, TruncationMarker);
        var y := LStrip(x) + TruncationMarker;
        assert y[|y| - 1] == ']';
        RStripUnfold(y);
      } else {
        StripSingleSpaced(c);
      }
      SingleSpacedNoNewline(r);
    }
  }

  /** The characters other than whitespace that cleaning keeps. */
  lemma {:induction false} CleanKeepsText(content: string)
    ensures var r := CleanContent(content);
      && (|CollapseWs(content)| <= MaxContentLength ==> NonSpace(r) == NonSpace(content))
      && (|CollapseWs(content)| > MaxContentLength ==>
            var kept := NonSpace(CollapseWs(content)[..MaxContentLength]);
            kept <= NonSpace(content) && NonSpace(r) == kept + NonSpace(TruncationMarker))
  {
    if content != "" {
      var c := CollapseWs(content);
      CollapseWsShape(content);
      assert NonSpace(c) == NonSpace(content);
      if |c| > MaxContentLength {
        var x := c[..MaxContentLength];
        assert c == x + c[MaxContentLength..];
        NonSpaceAppend(x, c[MaxContentLength..]);
        NonSpaceStrip(x + TruncationMarker);
        NonSpaceAppend(x, TruncationMarker);
      } else {
        NonSpaceStrip(c);
      }
    }
  }

  // ----- content type -----

  const ContentTypes: set<string> := {"academic_paper", "code_repository", "blog_post", "news_article", "general_article"}

  predicate IsBlogDomain(domain: string) {
    Contains(domain, "medium.com") || Contains(domain, "substack.com") || Contains(domain, "blog.")
  }

  predicate IsNewsDomain(domain: string) {
    Contains(domain, "venturebeat.com") || Contains(domain, "tomshardware.com") || Contains(domain, "techcrunch.com")
  }

  /** `_detect_content_type(domain, soup)`: the first of the substring tests that holds names the type. */
  function DetectContentType(domain: string): (t: string)
    ensures t in ContentTypes && t != "unknown"
    ensures t == "academic_paper" <==> Contains(domain, "arxiv.org")
    ensures t == "code_repository" <==> !Contains(domain, "arxiv.org") && Contains(domain, "github.com")
    ensures t == "blog_post" <==> !Contains(domain, "arxiv.org") && !Contains(domain, "github.com") && IsBlogDomain(domain)
    ensures t == "news_article" <==>
      !Contains(domain, "arxiv.org") && !Contains(domain, "github.com") && !IsBlogDomain(domain) && IsNewsDomain(domain)
  {
    if Contains(domain, "arxiv.org") then "academic_paper"
    else if Contains(domain, "github.com") then "code_repository"
    else if IsBlogDomain(domain) then "blog_post"
    else if IsNewsDomain(domain) then "news_article"
    else "general_article"
  }

  // ----- the result record -----

  /** The dictionary `extract_content` returns; `error` is `None` until something fails. */
  datatype Extraction = Extraction(content: string, cleanedContent: string, title: string, metaDescription: string,
                                   wordCount: nat, success: bool, error: Option<string>, domain: string,
                                   contentType: string)

  const Initial: Extraction := Extraction("", "", "", "", 0, false, None, "", "unknown")

  /** `str(ValueError)` for a URL whose authority has one square bracket without the other. */
  const InvalidUrlMessage: string := "Invalid IPv6 URL"

  function BlacklistedMessage(domain: string): string {
    "Domain " + domain + " is blacklisted (known to be slow/problematic)"
  }

  /** The fields read off a fetched page. */
  predicate FromPage(r: Extraction, page: Page) {
    && r.title == (if page.title.Some? then Strip(page.title.value) else "")
    && r.metaDescription == (if page.metaDescription.Some? then Strip(page.metaDescription.value) else "")
    && (r.success <==> MainContent(page) != "")
    && (r.success ==>
          && r.content == MainContent(page)
          && r.cleanedContent == CleanContent(r.content)
          && r.wordCount == WordCount(r.cleanedContent)
          && r.contentType == DetectContentType(r.domain)
          && r.error == None)
    && (!r.success ==>
          && r.content == "" && r.cleanedContent == "" && r.wordCount == 0
          && r.contentType == "unknown" && r.error == Some("No content found"))
  }

  /** `extract_content(url)` succeeds: a parsable URL, a domain not blacklisted, a fetched page with main content. */
  predicate ExtractionSucceeds(url: string, remote: nat -> Attempt) {
    && Netloc(url).Some? && Netloc(url).value !in BlacklistedDomains
    && Fetched(remote).Some? && MainContent(Fetched(remote).value) != ""
  }

  /**
   * `extract_content(url)`, with the unparsable URL reported in the record.
   * `requests` is how many requests were sent.
   */
  method ExtractContent(url: string, remote: nat -> Attempt) returns (result: Extraction, requests: nat)
    ensures Netloc(url).None? ==> result == Initial.(error := Some(InvalidUrlMessage)) && requests == 0
    ensures Netloc(url).Some? ==> result.domain == Netloc(url).value
    ensures Netloc(url).Some? && Netloc(url).value in BlacklistedDomains ==>
      result == Initial.(domain := Netloc(url).value, error := Some(BlacklistedMessage(Netloc(url).value)))
      && requests == 0
    ensures Netloc(url).Some? && Netloc(url).value !in BlacklistedDomains ==> 1 <= requests <= MaxRetries
    ensures Netloc(url).Some? && Netloc(url).value !in BlacklistedDomains && Fetched(remote).None? ==>
      result == Initial.(domain := Netloc(url).value, error := Some("Failed to fetch page"))
      && requests == MaxRetries
    ensures Netloc(url).Some? && Netloc(url).value !in BlacklistedDomains && Fetched(remote).Some? ==>
      FromPage(result, Fetched(remote).value)
    ensures result.success <==> result.content != ""
    ensures result.success <==> ExtractionSucceeds(url, remote)
    ensures result.success ==> result.contentType in ContentTypes
  {
    result := Initial;
    requests := 0;
    var netloc := Netloc(url);
    if netloc.None? {
      result := result.(error := Some(InvalidUrlMessage));
      return;
    }
    var domain := netloc.value;
    result := result.(domain := domain);
    if domain in BlacklistedDomains {
      result := result.(error := Some(BlacklistedMessage(domain)));
      return;
    }
    var response, attempts, pauses := FetchWithRetries(remote);
    requests := attempts;
    if response.None? {
      result := result.(error := Some("Failed to fetch page"));
      return;
    }
    var page := response.value;
    if page.title.Some? {
      result := result.(title := Strip(page.title.value));
    }
    if page.metaDescription.Some? {
      result := result.(metaDescription := Strip(page.metaDescription.value));
    }
    var content := ExtractMainContent(page);
    if content != "" {
      var cleaned := CleanContent(content);
      result := result.(content := content, cleanedContent := cleaned, wordCount := WordCount(cleaned),
                        success := true, contentType := DetectContentType(domain));
    } else {
      result := result.(error := Some("No content found"));
    }
  }

  /**
   * `extract_content(url)` as written: when `urlparse` raises, the handler
   * logs with `domain`, which is not yet bound, so `UnboundLocalError`
   * escapes instead of a record being returned (`None` here).
   */
  method ExtractContentAsWritten(url: string, remote: nat -> Attempt) returns (result: Option<Extraction>, requests: nat)
    ensures result.None? <==> Netloc(url).None?
    ensures result.None? ==> requests == 0
  {
    if Netloc(url).None? {
      return None, 0;
    }
    var r;
    r, requests := ExtractContent(url, remote);
    result := Some(r);
  }

}
