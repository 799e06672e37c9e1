/**
 * The store adapter and duplicate detector (`DatabaseManager`).
 *
 * The SQL table is a sequence of `Row`s whose links are unique (the
 * `UNIQUE` constraint on `link`).  Beside it the manager keeps two caches:
 * the links and the title hashes of recent rows.  An article is a duplicate
 * when its link is cached, when the hash of its normalised title is cached,
 * when a row of the same domain with the same title hash was published in
 * the last seven days, or when a row already has its link, tried in that
 * order.
 *
 * "Now", the MD5 function and the failures of the store are inputs: `now`
 * is a `DateTime`, `md5` an uninterpreted function to 32-character hex
 * digests, and a query or commit that raises is a flag or an error message.
 */
module Database {
  import opened Wrappers
  import opened Text
  import opened Calendar
  import opened Urls
  import opened ReadTime
  import opened Models
  import Sorting

  /** What `hashlib.md5(...).hexdigest()` returns: 32 hexadecimal characters. */
  type Digest = s: string | |s| == 32 witness "00000000000000000000000000000000"

  // ----- normalisation and hashing -----

  /** `_normalize_title`: read-time annotations out, then strip, lower-case and collapse whitespace. */
  function NormalizeTitle(title: string): string {
    CollapseWs(Lower(Strip(RemoveAll(title, true, true))))
  }

  /**
   * A normalised title is lower-case, trimmed, and single-spaced, and its
   * characters other than whitespace are those of the title without its
   * annotations, lower-cased, all of them and in order.
   */
  lemma {:induction false} NormalizedShape(title: string)
    ensures var n := NormalizeTitle(title);
      && NoUpper(n)
      && SingleSpaced(n)
      && (n == [] || (!IsSpace(n[0]) && !IsSpace(n[|n| - 1])))
      && NonSpace(n) == Lower(NonSpace(RemoveAll(title, true, true)))
  {
    NormalizedOf(RemoveAll(title, true, true));
  }

  /** The same, for any text in place of the title without its annotations. */
  lemma {:induction false} NormalizedOf(x: string)
    ensures var n := CollapseWs(Lower(Strip(x)));
      && NoUpper(n)
      && SingleSpaced(n)
      && (n == [] || (!IsSpace(n[0]) && !IsSpace(n[|n| - 1])))
      && NonSpace(n) == Lower(NonSpace(x))
  {
    LoweredShape(Strip(x));
    NonSpaceStrip(x);
  }

  /** Lower-casing and collapsing a trimmed text leaves it lower-case, trimmed and single-spaced,
      with its other characters lower-cased. */
  lemma {:induction false} LoweredShape(t: string)
    requires t == [] || (!IsSpace(t[0]) && !IsSpace(t[|t| - 1]))
    ensures var n := CollapseWs(Lower(t));
      && NoUpper(n)
      && SingleSpaced(n)
      && (n == [] || (!IsSpace(n[0]) && !IsSpace(n[|n| - 1])))
      && NonSpace(n) == Lower(NonSpace(t))
  {
    var l := Lower(t);
    CollapseWsShape(l);
    LowerHasNoUpper(t);
    LowerTrimmed(t);
    CollapsedShape(CollapseWs(l), l);
    NonSpaceLower(t);
  }

  /** A whole annotation after a title, with its surrounding whitespace, does not change the normalisation. */
  lemma {:induction false} NormalizeDropsAnnotation(t: string, a: string)
    requires MatchAt(a, true, true) == Some(|a|)
    ensures NormalizeTitle(t + a) == NormalizeTitle(t)
  {
    RemoveBeforeAnnotation(t, a, true, true);
    var x := RemoveAll(t + a, true, true);
    var y := RemoveAll(t, true, true);
    assert y == x + y[|x|..];
    StripSpaceSuffix(x, y[|x|..]);
  }

  /** So a title and the same title with `" (N minute read)"` appended, in any case, hash alike. */
  lemma {:induction false} AnnotatedTitleHash(md5: string -> Digest, t: string, lead: string, digits: string, gap1: string,
                           minute: string, gap2: string, read: string, trail: string)
    requires WellFormed(digits, gap1, minute, gap2, read, true)
    requires AllSpace(lead) && AllSpace(trail)
    ensures TitleHash(md5, t + (lead + Parens(digits, gap1, minute, gap2, read) + trail)) == TitleHash(md5, t)
  {
    AnnotationMatches(lead, digits, gap1, minute, gap2, read, trail, true, true);
    NormalizeDropsAnnotation(t, lead + Parens(digits, gap1, minute, gap2, read) + trail);
  }

  /** `_generate_title_hash`. */
  function TitleHash(md5: string -> Digest, title: string): (h: Digest) {
    md5(NormalizeTitle(title))
  }

  /** `_generate_content_hash`: `''` for empty content, else the digest of the trimmed, lower-cased, collapsed text. */
  function ContentHash(md5: string -> Digest, content: string): (h: string)
    ensures h == "" <==> content == ""
  {
    if content == "" then "" else md5(CollapseWs(Lower(Strip(content))))
  }

  /** `_extract_domain`: the lower-cased netloc, `''` when the URL cannot be parsed. */
  function ExtractDomain(url: string): (d: string)
    ensures NoUpper(d)
  {
    match Netloc(url)
    case Some(n) => LowerHasNoUpper(n); Lower(n)
    case None => ""
  }

  /** The stored domain is the item's `domain` lower-cased. */
  lemma {:induction false} ExtractDomainOfItem(item: NewsItem)
    ensures ExtractDomain(item.link) == Lower(item.Domain())
  {
  }

  lemma {:induction false} ExtractDomainOfUrl(scheme: string, host: string, path: string)
    requires IsScheme(scheme) && IsPlainAuthority(host) && IsPathPart(path)
    ensures ExtractDomain(scheme + "://" + host + path) == Lower(host)
  {
    NetlocOfUrl(scheme, host, path);
  }

  // ----- the store -----

  predicate LinksUnique(rows: seq<Row>) {
    forall i, j :: 0 <= i < j < |rows| ==> rows[i].link != rows[j].link
  }

  predicate HasLink(rows: seq<Row>, link: string) {
    exists i :: 0 <= i < |rows| && rows[i].link == link
  }

  /** The row of the third check: same domain, same title hash, published in the last seven days. */
  predicate SimilarRow(r: Row, domain: string, titleHash: string, now: DateTime) {
    r.domain == domain && r.titleHash == titleHash && NotOlderThan(r.publishedDate, now, 7)
  }

  predicate HasSimilar(rows: seq<Row>, domain: string, titleHash: string, now: DateTime) {
    exists i :: 0 <= i < |rows| && SimilarRow(rows[i], domain, titleHash, now)
  }

  /** The verdicts of `is_duplicate`, the duplicate ones in the order it tries them; `Reason` is the text it returns. */
  datatype Verdict = ExactLinkMatch | SimilarTitleMatch | SimilarContentSameDomain | ExactLinkDatabase
                   | NotDuplicate | ErrorChecking
  {
    predicate Duplicate() {
      !(NotDuplicate? || ErrorChecking?)
    }

    function Reason(): string {
      match this
      case ExactLinkMatch => "exact_link_match"
      case SimilarTitleMatch => "similar_title_match"
      case SimilarContentSameDomain => "similar_content_same_domain"
      case ExactLinkDatabase => "exact_link_database"
      case NotDuplicate => "not_duplicate"
      case ErrorChecking => "error_checking"
    }
  }

  /**
   * The text `str(e)` of what a commit raises, as the database layer words
   * it: `other` when the commit fails for a reason of its own (a lost
   * connection, say), and `violation` when the row's link is already stored.
   * The integrity error's text quotes the driver's message, the statement
   * and its parameters, so it is an input here rather than a constant.
   */
  datatype CommitTexts = CommitTexts(other: Option<string>, violation: string)

  /** Why a commit of a row with `link` raises, if it does. */
  function CommitFailure(rows: seq<Row>, link: string, commitError: CommitTexts): Option<string> {
    if commitError.other.Some? then commitError.other
    else if HasLink(rows, link) then Some(commitError.violation)
    else None
  }

  predicate Recent(r: Row, now: DateTime) {
    NotOlderThan(r.createdAt, now, 30)
  }

  /** The links `_load_caches` reads: those of rows created in the last 30 days. */
  function RecentLinks(rows: seq<Row>, now: DateTime): set<string> {
    set r | r in rows && Recent(r, now) :: r.link
  }

  /** ... and their title hashes, the empty ones left out. */
  function RecentTitleHashes(rows: seq<Row>, now: DateTime): set<string> {
    set r | r in rows && Recent(r, now) && r.titleHash != "" :: r.titleHash
  }

  /** The row an item becomes when it is committed at `now`. */
  function StoredRow(item: NewsItem, now: DateTime): Row
    reads item
  {
    Row(item.title, item.summary, item.link, item.source, item.publishedDate, item.content,
        item.tagsStr, item.imageUrl, item.readTime, item.titleHash, item.contentHash,
        item.domainField, now)
  }

  // ----- batch statistics -----

  /** The `result` of an entry of `processed_items`: `'saved'`, `'duplicate'` or `'error'`. */
  datatype Outcome = Saved | Duplicate | Error

  /** One entry of `processed_items`. */
  datatype ItemInfo = ItemInfo(title: string, link: string, status: string, result: Outcome)

  /** What `save_news_items` returns; `duplicate_reasons` keeps its keys in insertion order. */
  datatype Stats = Stats(total: nat, saved: nat, duplicates: nat, errors: nat,
                         duplicateReasons: seq<(string, nat)>, processedItems: seq<ItemInfo>)

  /** The title as `processed_items` shows it: cut to 50 characters and `...` when longer. */
  function Abbreviated(title: string): (s: string)
    ensures |s| <= 53
    ensures |title| <= 50 ==> s == title
    ensures |title| > 50 ==> |s| == 53 && s[..50] == title[..50]
  {
    if |title| > 50 then title[..50] + "..." else title
  }

  const DuplicatePrefix: string := "duplicate_"
  const ErrorPrefix: string := "error_"
  const SavedMessage: string := "saved_successfully"

  /** The `result` of an entry says what its `status` says. */
  predicate InfoAgrees(p: ItemInfo) {
    && (p.result == Saved <==> p.status == SavedMessage)
    && (p.result == Duplicate <==> DuplicatePrefix <= p.status)
    && (p.result == Error <==> ErrorPrefix <= p.status)
  }

  /** The three kinds of status message cannot be mistaken for one another. */
  lemma {:induction false} StatusKinds(x: string, y: string)
    ensures !(DuplicatePrefix <= SavedMessage) && !(ErrorPrefix <= SavedMessage)
    ensures !(ErrorPrefix <= DuplicatePrefix + x) && !(DuplicatePrefix <= ErrorPrefix + y)
    ensures DuplicatePrefix <= DuplicatePrefix + x && ErrorPrefix <= ErrorPrefix + y
  {
    assert SavedMessage[0] == 's' && (DuplicatePrefix + x)[0] == 'd' && (ErrorPrefix + y)[0] == 'e';
  }

  function ReasonTotal(reasons: seq<(string, nat)>): nat {
    if reasons == [] then 0 else reasons[0].1 + ReasonTotal(reasons[1..])
  }

  predicate DistinctKeys(reasons: seq<(string, nat)>) {
    forall i, j :: 0 <= i < j < |reasons| ==> reasons[i].0 != reasons[j].0
  }

  /** The count recorded for `reason`, 0 when it has none. */
  function ReasonCount(reasons: seq<(string, nat)>, reason: string): nat {
    if reasons == [] then 0
    else (if reasons[0].0 == reason then reasons[0].1 else 0) + ReasonCount(reasons[1..], reason)
  }

  /** `reasons[reason] = reasons.get(reason, 0) + 1` on an insertion-ordered dictionary. */
  function Bump(reasons: seq<(string, nat)>, reason: string): (r: seq<(string, nat)>)
    ensures |r| == |reasons| || r == reasons + [(reason, 1)]
  {
    if reasons == [] then [(reason, 1)]
    else if reasons[0].0 == reason then [(reason, reasons[0].1 + 1)] + reasons[1..]
    else [reasons[0]] + Bump(reasons[1..], reason)
  }

  /** Bumping adds one to the total and to the reason's own count, keeps the keys distinct, and the others' counts as they were. */
  lemma {:induction false} BumpCounts(reasons: seq<(string, nat)>, reason: string)
    requires DistinctKeys(reasons)
    ensures ReasonTotal(Bump(reasons, reason)) == ReasonTotal(reasons) + 1
    ensures DistinctKeys(Bump(reasons, reason))
    ensures forall k :: ReasonCount(Bump(reasons, reason), k) == ReasonCount(reasons, k) + (if k == reason then 1 else 0)
  {
    var r := Bump(reasons, reason);
    if reasons == [] {
    } else if reasons[0].0 == reason {
      assert r[1..] == reasons[1..];
      KeyAbsent(reasons[1..], reason);
    } else {
      var t := reasons[1..];
      assert DistinctKeys(t) by {
        forall i, j | 0 <= i < j < |t| ensures t[i].0 != t[j].0 { assert t[i] == reasons[i + 1] && t[j] == reasons[j + 1]; }
      }
      BumpCounts(t, reason);
      var b := Bump(t, reason);
      assert r == [reasons[0]] + b && r[1..] == b;
      forall i | 0 <= i < |b| ensures b[i].0 != reasons[0].0 {
        BumpKeys(t, reason, i);
        if b[i].0 != reason {
          var k :| 0 <= k < |t| && t[k].0 == b[i].0;
          assert t[k] == reasons[k + 1];
        }
      }
      forall i, j | 0 <= i < j < |r| ensures r[i].0 != r[j].0 {
        if i > 0 { assert r[i] == b[i - 1]; }
        assert r[j] == b[j - 1];
      }
    }
  }

  /** Every key after a bump was a key before it, or is the bumped reason. */
  lemma {:induction false} BumpKeys(reasons: seq<(string, nat)>, reason: string, i: nat)
    requires i < |Bump(reasons, reason)|
    ensures var k := Bump(reasons, reason)[i].0; k == reason || exists j :: 0 <= j < |reasons| && reasons[j].0 == k
  {
    if reasons != [] && reasons[0].0 != reason && i > 0 {
      BumpKeys(reasons[1..], reason, i - 1);
      var k := Bump(reasons, reason)[i].0;
      if k != reason {
        var j :| 0 <= j < |reasons[1..]| && reasons[1..][j].0 == k;
        assert reasons[j + 1].0 == k;
      }
    }
  }

  lemma {:induction false} KeyAbsent(reasons: seq<(string, nat)>, reason: string)
    requires forall i :: 0 <= i < |reasons| ==> reasons[i].0 != reason
    ensures ReasonCount(reasons, reason) == 0
  {
    if reasons != [] {
      KeyAbsent(reasons[1..], reason);
    }
  }

  /** The entries whose `result` is `result`. */
  function CountResult(processed: seq<ItemInfo>, result: Outcome): nat {
    if processed == [] then 0
    else CountResult(processed[..|processed| - 1], result) + (if processed[|processed| - 1].result == result then 1 else 0)
  }

  /** The entries whose status is `status`. */
  function CountStatus(processed: seq<ItemInfo>, status: string): nat {
    if processed == [] then 0
    else CountStatus(processed[..|processed| - 1], status) + (if processed[|processed| - 1].status == status then 1 else 0)
  }

  /** The counters agree with the entries: each outcome counted once, each duplicate under its reason. */
  ghost predicate Tallied(s: Stats) {
    && s.saved + s.duplicates + s.errors == |s.processedItems|
    && ReasonTotal(s.duplicateReasons) == s.duplicates && DistinctKeys(s.duplicateReasons)
    && s.saved == CountResult(s.processedItems, Saved)
    && s.duplicates == CountResult(s.processedItems, Duplicate)
    && s.errors == CountResult(s.processedItems, Error)
    && forall k :: ReasonCount(s.duplicateReasons, k) == CountStatus(s.processedItems, DuplicatePrefix + k)
  }

  /** One turn of the loop of `save_news_items` after the save: the matching counter goes up,
      a duplicate's reason is counted, and the entry is appended. */
  function Record(s: Stats, info: ItemInfo): Stats
    requires InfoAgrees(info)
  {
    match info.result
    case Saved => s.(saved := s.saved + 1, processedItems := s.processedItems + [info])
    case Duplicate =>
      s.(duplicates := s.duplicates + 1,
         duplicateReasons := Bump(s.duplicateReasons, info.status[|DuplicatePrefix|..]),
         processedItems := s.processedItems + [info])
    case Error => s.(errors := s.errors + 1, processedItems := s.processedItems + [info])
  }

  /** Recording an entry keeps the counters in agreement with the entries. */
  lemma {:induction false} RecordTallied(s: Stats, info: ItemInfo)
    requires Tallied(s) && InfoAgrees(info)
    ensures Tallied(Record(s, info))
    ensures Record(s, info).total == s.total && Record(s, info).processedItems == s.processedItems + [info]
  {
    var t := Record(s, info);
    assert t.processedItems[..|s.processedItems|] == s.processedItems;
    ghost var reason: string := "";
    if info.result == Duplicate {
      reason := info.status[|DuplicatePrefix|..];
      assert info.status == DuplicatePrefix + reason;
      BumpCounts(s.duplicateReasons, reason);
    } else {
      StatusKinds("", "");
    }
    forall k ensures ReasonCount(t.duplicateReasons, k) == CountStatus(t.processedItems, DuplicatePrefix + k) {
      StatusStep(t.processedItems, info, reason, k);
    }
  }

  /** The statistics returned when the whole batch raises: nothing saved, every item an error, no entries. */
  function FallbackStats(total: nat): (s: Stats)
    ensures s.total == total && s.saved == 0 && s.duplicates == 0 && s.errors == total
    ensures s.duplicateReasons == [] && s.processedItems == []
  {
    Stats(total, 0, 0, total, [], [])
  }

  // ----- cleaning -----

  /** Created on or before `now - days`. */
  predicate IsOld(r: Row, now: DateTime, days: int) {
    AtLeastDaysOld(r.createdAt, now, days)
  }

  /** Row `i` is old and is the one of its title-hash group that the cleaning keeps:
      the newest, and of equally new rows the first. */
  predicate Newest(rows: seq<Row>, i: nat, now: DateTime, days: int)
    requires i < |rows|
  {
    && IsOld(rows[i], now, days)
    && forall j :: 0 <= j < |rows| && j != i && IsOld(rows[j], now, days) && rows[j].titleHash == rows[i].titleHash ==>
         Ticks(rows[j].createdAt) < Ticks(rows[i].createdAt)
         || (Ticks(rows[j].createdAt) == Ticks(rows[i].createdAt) && i < j)
  }

  /** Row `i` survives the cleaning. */
  predicate Keeps(rows: seq<Row>, i: nat, now: DateTime, days: int)
    requires i < |rows|
  {
    !IsOld(rows[i], now, days) || Newest(rows, i, now, days)
  }

  /** The rows among the first `n` that survive, in order. */
  function Kept(rows: seq<Row>, n: nat, now: DateTime, days: int): seq<Row>
    requires n <= |rows|
  {
    if n == 0 then []
    else Kept(rows, n - 1, now, days) + (if Keeps(rows, n - 1, now, days) then [rows[n - 1]] else [])
  }

  function OldIndices(rows: seq<Row>, now: DateTime, days: int): set<nat> {
    set i: nat | i < |rows| && IsOld(rows[i], now, days)
  }

  function NewestIndices(rows: seq<Row>, now: DateTime, days: int): set<nat> {
    set i: nat | i < |rows| && Newest(rows, i, now, days)
  }

  /** The title hashes of the old rows: one per group the cleaning looks at. */
  function OldHashes(rows: seq<Row>, now: DateTime, days: int): set<string> {
    set i | i in OldIndices(rows, now, days) :: rows[i].titleHash
  }

  /** The rows that are not old, in order. */
  function Young(rows: seq<Row>, now: DateTime, days: int): seq<Row> {
    if rows == [] then []
    else Young(rows[..|rows| - 1], now, days) + (if IsOld(rows[|rows| - 1], now, days) then [] else [rows[|rows| - 1]])
  }

  /** The cleaning leaves the rows newer than the cutoff as they were, in their order. */
  lemma {:induction false} KeptYoung(rows: seq<Row>, n: nat, now: DateTime, days: int)
    requires n <= |rows|
    ensures Young(Kept(rows, n, now, days), now, days) == Young(rows[..n], now, days)
  {
    if n > 0 {
      KeptYoung(rows, n - 1, now, days);
      var k := Kept(rows, n - 1, now, days);
      assert rows[..n][..n - 1] == rows[..n - 1];
      if Keeps(rows, n - 1, now, days) {
        assert (k + [rows[n - 1]])[..|k|] == k;
      } else {
        assert k + [] == k;
      }
    }
  }

  /** The surviving rows are rows of the store, and a row of the store survives when its index does. */
  lemma {:induction false} KeptMembers(rows: seq<Row>, n: nat, now: DateTime, days: int, i: nat)
    requires i < n <= |rows| && Keeps(rows, i, now, days)
    ensures rows[i] in Kept(rows, n, now, days)
  {
    if i < n - 1 {
      KeptMembers(rows, n - 1, now, days, i);
    }
  }

  /** Two rows both kept as the newest of one group are the same row. */
  lemma {:induction false} NewestUnique(rows: seq<Row>, i: nat, j: nat, now: DateTime, days: int)
    requires i < |rows| && j < |rows|
    requires Newest(rows, i, now, days) && Newest(rows, j, now, days)
    requires rows[i].titleHash == rows[j].titleHash
    ensures i == j
  {
  }

  /** Of the old rows among the first `n` with hash `h`, the index of the newest (the first of equals), or -1. */
  function BestBelow(rows: seq<Row>, h: string, n: nat, now: DateTime, days: int): (b: int)
    requires n <= |rows|
    ensures -1 <= b < n
  {
    if n == 0 then -1
    else
      var b := BestBelow(rows, h, n - 1, now, days);
      if IsOld(rows[n - 1], now, days) && rows[n - 1].titleHash == h
         && (b == -1 || Ticks(rows[n - 1].createdAt) > Ticks(rows[b].createdAt))
      then n - 1 else b
  }

  lemma {:induction false} BestBelowIsBest(rows: seq<Row>, h: string, n: nat, now: DateTime, days: int)
    requires n <= |rows|
    ensures var b := BestBelow(rows, h, n, now, days);
      && (b == -1 <==> forall j :: 0 <= j < n ==> !(IsOld(rows[j], now, days) && rows[j].titleHash == h))
      && (b >= 0 ==> IsOld(rows[b], now, days) && rows[b].titleHash == h)
      && (b >= 0 ==> forall j :: 0 <= j < n && j != b && IsOld(rows[j], now, days) && rows[j].titleHash == h ==>
            Ticks(rows[j].createdAt) < Ticks(rows[b].createdAt)
            || (Ticks(rows[j].createdAt) == Ticks(rows[b].createdAt) && b < j))
  {
    if n > 0 {
      BestBelowIsBest(rows, h, n - 1, now, days);
    }
  }

  /** Every title-hash group of old rows keeps exactly one row, its newest. */
  lemma {:induction false} GroupKeepsOne(rows: seq<Row>, h: string, now: DateTime, days: int)
    requires h in OldHashes(rows, now, days)
    ensures exists i :: 0 <= i < |rows| && rows[i].titleHash == h && Newest(rows, i, now, days)
  {
    var b := BestBelow(rows, h, |rows|, now, days);
    BestBelowIsBest(rows, h, |rows|, now, days);
    var i :| i in OldIndices(rows, now, days) && rows[i].titleHash == h;
    assert b >= 0;
    assert Newest(rows, b, now, days);
  }

  /** As many rows are kept as there are groups. */
  lemma {:induction false} NewestCount(rows: seq<Row>, now: DateTime, days: int)
    ensures |NewestIndices(rows, now, days)| == |OldHashes(rows, now, days)|
  {
    var ni := NewestIndices(rows, now, days);
    var img := set i | i in ni :: rows[i].titleHash;
    assert img == OldHashes(rows, now, days) by {
      forall h | h in OldHashes(rows, now, days) ensures h in img {
        GroupKeepsOne(rows, h, now, days);
        var i :| 0 <= i < |rows| && rows[i].titleHash == h && Newest(rows, i, now, days);
        assert i in ni;
      }
    }
    forall i, j | i in ni && j in ni && rows[i].titleHash == rows[j].titleHash ensures i == j {
      NewestUnique(rows, i, j, now, days);
    }
    ImageCard(rows, ni);
  }

  /** The hashes at a set of indices where no two rows share a hash are as many as the indices. */
  lemma {:induction false} ImageCard(rows: seq<Row>, s: set<nat>)
    requires forall i :: i in s ==> i < |rows|
    requires forall i, j :: i in s && j in s && rows[i].titleHash == rows[j].titleHash ==> i == j
    ensures |set i | i in s :: rows[i].titleHash| == |s|
    decreases |s|
  {
    if s != {} {
      var x :| x in s;
      var s' := s - {x};
      ImageCard(rows, s');
      var img' := set i | i in s' :: rows[i].titleHash;
      assert (set i | i in s :: rows[i].titleHash) == img' + {rows[x].titleHash};
      assert rows[x].titleHash !in img';
    }
  }

  lemma {:induction false} SubsetCard(a: set<nat>, b: set<nat>)
    requires b <= a
    ensures |a - b| == |a| - |b|
  {
    assert a == (a - b) + b;
  }

  // ----- the recent-news query -----

  /** The rows paired with their publication instants. */
  function DatedRows(rows: seq<Row>): (ps: seq<(int, Row)>)
    ensures |ps| == |rows| && forall i :: 0 <= i < |rows| ==> ps[i] == (Ticks(rows[i].publishedDate), rows[i])
  {
    if rows == [] then [] else [(Ticks(rows[0].publishedDate), rows[0])] + DatedRows(rows[1..])
  }

  /** The rows `get_recent_news` selects: of the source unless that is empty, published in the last `days` days. */
  predicate Selected(r: Row, now: DateTime, days: int, source: string) {
    (source == "" || r.source == source) && NotOlderThan(r.publishedDate, now, days)
  }

  function Select(rows: seq<Row>, now: DateTime, days: int, source: string): (s: seq<Row>)
    ensures forall r :: r in s <==> r in rows && Selected(r, now, days, source)
  {
    if rows == [] then []
    else (if Selected(rows[0], now, days, source) then [rows[0]] else []) + Select(rows[1..], now, days, source)
  }

  lemma {:induction false} DatedRowsKeys(ps: seq<(int, Row)>, rows: seq<Row>, descending: bool)
    requires ps == DatedRows(rows)
    ensures var s := Sorting.Sort(ps, descending); forall i :: 0 <= i < |s| ==> s[i].0 == Ticks(s[i].1.publishedDate)
    ensures multiset(Sorting.Values(Sorting.Sort(ps, descending))) == multiset(rows)
  {
    var s := Sorting.Sort(ps, descending);
    Sorting.SortSorted(ps, descending);
    forall i | 0 <= i < |s| ensures s[i].0 == Ticks(s[i].1.publishedDate) {
      assert s[i] in multiset(ps);
      var k :| 0 <= k < |ps| && ps[k] == s[i];
    }
    Sorting.SortValues(ps, descending);
    assert Sorting.Values(ps) == rows;
  }

  /** The selected rows by publication date, newest first, equal dates in store order. */
  function NewestFirst(rows: seq<Row>): (r: seq<Row>)
    ensures multiset(r) == multiset(rows)
    ensures forall i, j :: 0 <= i < j < |r| ==> Ticks(r[i].publishedDate) >= Ticks(r[j].publishedDate)
  {
    var ps := DatedRows(rows);
    var s := Sorting.Sort(ps, true);
    Sorting.SortSorted(ps, true);
    DatedRowsKeys(ps, rows, true);
    assert forall i, j :: 0 <= i < j < |s| ==> Sorting.Before(s[i].0, s[j].0, true);
    Sorting.Values(s)
  }

  /**
   * Cutting the newest-first order after `limit` rows keeps the newest: every
   * selected row left out is no newer than every row kept.
   */
  lemma {:induction false} NewestPrefix(selected: seq<Row>, limit: int)
    ensures var all := NewestFirst(selected); var r := FirstRows(all, limit);
      && |all| == |selected|
      && multiset(r) <= multiset(selected)
      && (forall x :: x in r ==> x in selected)
      && (forall i, j :: 0 <= i < j < |r| ==> Ticks(r[i].publishedDate) >= Ticks(r[j].publishedDate))
      && (limit < 0 || limit >= |selected| ==> multiset(r) == multiset(selected))
      && (0 <= limit < |selected| ==> |r| == limit)
      && forall x, y :: x in selected && x !in r && y in r ==> Ticks(x.publishedDate) <= Ticks(y.publishedDate)
  {
    CutKeepsNewest(selected, NewestFirst(selected), limit);
  }

  /** The same, for any newest-first permutation `all` of the selected rows. */
  lemma {:induction false} CutKeepsNewest(selected: seq<Row>, all: seq<Row>, limit: int)
    requires multiset(all) == multiset(selected)
    requires forall i, j :: 0 <= i < j < |all| ==> Ticks(all[i].publishedDate) >= Ticks(all[j].publishedDate)
    ensures var r := FirstRows(all, limit);
      && |all| == |selected|
      && multiset(r) <= multiset(selected)
      && (forall x :: x in r ==> x in selected)
      && (forall i, j :: 0 <= i < j < |r| ==> Ticks(r[i].publishedDate) >= Ticks(r[j].publishedDate))
      && (limit < 0 || limit >= |selected| ==> multiset(r) == multiset(selected))
      && (0 <= limit < |selected| ==> |r| == limit)
      && forall x, y :: x in selected && x !in r && y in r ==> Ticks(x.publishedDate) <= Ticks(y.publishedDate)
  {
    assert |multiset(all)| == |all| && |multiset(selected)| == |selected|;
    var r := FirstRows(all, limit);
    assert all == r + all[|r|..];
    assert forall i :: 0 <= i < |r| ==> r[i] == all[i];
    forall x | x in r ensures x in selected {
      assert x in multiset(all);
    }
    forall x, y | x in selected && x !in r && y in r ensures Ticks(x.publishedDate) <= Ticks(y.publishedDate) {
      assert x in multiset(all);
      var k :| 0 <= k < |all| && all[k] == x;
      var j :| 0 <= j < |r| && r[j] == y;
      assert all[j] == y;
    }
  }

  /** `.limit(limit)`: the first `limit` rows, all of them when `limit` is negative or not less than their number. */
  function FirstRows(all: seq<Row>, limit: int): (r: seq<Row>)
    ensures r <= all
    ensures 0 <= limit < |all| ==> |r| == limit
  {
    if 0 <= limit < |all| then all[..limit] else all
  }

  class DatabaseManager {
    const md5: string -> Digest
    var linkCache: set<string>
    var titleHashCache: set<string>
    var rows: seq<Row>

    /** The store keeps its `UNIQUE` constraint on links. */
    ghost predicate Valid()
      reads this
    {
      LinksUnique(rows)
    }

    /** Opens a store holding `stored` and loads the caches as of `now`. */
    constructor (md5: string -> Digest, stored: seq<Row>, now: DateTime, loadFails: bool)
      requires LinksUnique(stored)
      ensures Valid() && this.md5 == md5 && rows == stored
      ensures !loadFails && CutoffInRange(now, 30) ==>
        linkCache == RecentLinks(stored, now) && titleHashCache == RecentTitleHashes(stored, now)
      ensures loadFails || !CutoffInRange(now, 30) ==> linkCache == {} && titleHashCache == {}
    {
      this.md5 := md5;
      rows := stored;
      linkCache := {};
      titleHashCache := {};
      new;
      LoadCaches(now, loadFails);
    }

    /** `_load_caches`: the links and non-empty title hashes of the rows created in the last 30 days;
        a failed query, or a cutoff `now - 30 days` that overflows, changes nothing. */
    method LoadCaches(now: DateTime, fails: bool)
      modifies this`linkCache, this`titleHashCache
      ensures !fails && CutoffInRange(now, 30) ==>
        linkCache == RecentLinks(rows, now) && titleHashCache == RecentTitleHashes(rows, now)
      ensures fails || !CutoffInRange(now, 30) ==> linkCache == old(linkCache) && titleHashCache == old(titleHashCache)
    {
      if !fails && CutoffInRange(now, 30) {
        linkCache := set r | r in rows && Recent(r, now) :: r.link;
        titleHashCache := set r | r in rows && Recent(r, now) && r.titleHash != "" :: r.titleHash;
      }
    }

    /** `is_duplicate(item)`: the verdict of the first check that fires, `NotDuplicate` when none does,
        and `ErrorChecking` when the store raises during the query checks or the cutoff
        `now - 7 days` overflows; the flag the source returns
        beside the reason is `Duplicate()` of the verdict. */
    function IsDuplicate(item: NewsItem, now: DateTime, queryFails: bool): (r: Verdict)
      reads this, item
      ensures item.link in linkCache ==> r == ExactLinkMatch
      ensures item.link !in linkCache && TitleHash(md5, item.title) in titleHashCache ==> r == SimilarTitleMatch
      ensures item.link !in linkCache && TitleHash(md5, item.title) !in titleHashCache
              && (queryFails || !CutoffInRange(now, 7)) ==>
        r == ErrorChecking
      ensures item.link !in linkCache && TitleHash(md5, item.title) !in titleHashCache
              && !queryFails && CutoffInRange(now, 7) ==>
        && (r == SimilarContentSameDomain <==> HasSimilar(rows, ExtractDomain(item.link), TitleHash(md5, item.title), now))
        && (r == ExactLinkDatabase <==>
              !HasSimilar(rows, ExtractDomain(item.link), TitleHash(md5, item.title), now) && HasLink(rows, item.link))
        && (r == NotDuplicate <==>
              !HasSimilar(rows, ExtractDomain(item.link), TitleHash(md5, item.title), now) && !HasLink(rows, item.link))
    {
      if item.link in linkCache then ExactLinkMatch
      else if TitleHash(md5, item.title) in titleHashCache then SimilarTitleMatch
      else if queryFails || !CutoffInRange(now, 7) then ErrorChecking
      else if HasSimilar(rows, ExtractDomain(item.link), TitleHash(md5, item.title), now) then SimilarContentSameDomain
      else if HasLink(rows, item.link) then ExactLinkDatabase
      else NotDuplicate
    }

    /** The hash and domain columns `save_news_item` fills in before the commit. */
    method SetColumns(item: NewsItem)
      modifies item`titleHash, item`contentHash, item`domainField
      ensures (item.titleHash, item.contentHash, item.domainField) ==
        (TitleHash(md5, item.title), ContentHash(md5, item.content), ExtractDomain(item.link))
    {
      item.titleHash, item.contentHash, item.domainField :=
        TitleHash(md5, item.title), ContentHash(md5, item.content), ExtractDomain(item.link);
    }

    /** `save_news_item(item)`: rejects a duplicate untouched; otherwise sets the item's hash and domain
        columns and commits it, growing both caches, unless the commit raises. */
    method SaveNewsItem(item: NewsItem, now: DateTime, queryFails: bool, commitError: CommitTexts)
      returns (ok: bool, message: string)
      requires Valid()
      modifies this`linkCache, this`titleHashCache, this`rows, item`titleHash, item`contentHash, item`domainField
      ensures Valid()
      ensures old(IsDuplicate(item, now, queryFails).Duplicate()) ==>
        && !ok && message == DuplicatePrefix + old(IsDuplicate(item, now, queryFails).Reason())
        && rows == old(rows) && linkCache == old(linkCache) && titleHashCache == old(titleHashCache)
        && unchanged(item)
      ensures !old(IsDuplicate(item, now, queryFails).Duplicate()) ==>
        && item.titleHash == TitleHash(md5, item.title)
        && item.contentHash == ContentHash(md5, item.content)
        && item.domainField == ExtractDomain(item.link)
      ensures !old(IsDuplicate(item, now, queryFails).Duplicate()) && CommitFailure(old(rows), item.link, commitError).None? ==>
        && ok && message == SavedMessage
        && rows == old(rows) + [StoredRow(item, now)]
        && linkCache == old(linkCache) + {item.link}
        && titleHashCache == old(titleHashCache) + {item.titleHash}
      ensures !old(IsDuplicate(item, now, queryFails).Duplicate()) && CommitFailure(old(rows), item.link, commitError).Some? ==>
        && !ok && message == ErrorPrefix + CommitFailure(old(rows), item.link, commitError).value
        && rows == old(rows) && linkCache == old(linkCache) && titleHashCache == old(titleHashCache)
      ensures ok ==> forall n, q :: IsDuplicate(item, n, q) == ExactLinkMatch
      ensures old(linkCache) <= linkCache && old(titleHashCache) <= titleHashCache
    {
      var verdict := IsDuplicate(item, now, queryFails);
      if verdict.Duplicate() {
        return false, DuplicatePrefix + verdict.Reason();
      }
      SetColumns(item);
      ok, message := Commit(item, now, commitError);
    }

    /** The commit of `save_news_item`: appends the item's row and caches its link and title hash,
        or changes nothing and reports the error. */
    method Commit(item: NewsItem, now: DateTime, commitError: CommitTexts) returns (ok: bool, message: string)
      requires Valid()
      modifies this`linkCache, this`titleHashCache, this`rows
      ensures Valid()
      ensures CommitFailure(old(rows), item.link, commitError).None? ==>
        && ok && message == SavedMessage
        && rows == old(rows) + [StoredRow(item, now)]
        && linkCache == old(linkCache) + {item.link}
        && titleHashCache == old(titleHashCache) + {item.titleHash}
      ensures CommitFailure(old(rows), item.link, commitError).Some? ==>
        && !ok && message == ErrorPrefix + CommitFailure(old(rows), item.link, commitError).value
        && rows == old(rows) && linkCache == old(linkCache) && titleHashCache == old(titleHashCache)
    {
      var failure := CommitFailure(rows, item.link, commitError);
      if failure.Some? {
        return false, ErrorPrefix + failure.value;
      }
      AppendUnique(rows, StoredRow(item, now));
      rows := rows + [StoredRow(item, now)];
      linkCache := linkCache + {item.link};
      titleHashCache := titleHashCache + {item.titleHash};
      ok, message := true, SavedMessage;
    }

    /** One turn of the loop of `save_news_items`: saves the item and records the outcome. */
    method SaveAndTally(item: NewsItem, now: DateTime, queryFails: bool, commitError: CommitTexts) returns (info: ItemInfo)
      requires Valid()
      modifies this`linkCache, this`titleHashCache, this`rows, item`titleHash, item`contentHash, item`domainField
      ensures Valid() && InfoAgrees(info)
      ensures info.link == item.link && info.title == Abbreviated(item.title)
      ensures info.result == Saved ==>
        && rows == old(rows) + [StoredRow(item, now)]
        && linkCache == old(linkCache) + {item.link}
        && titleHashCache == old(titleHashCache) + {item.titleHash}
      ensures info.result != Saved ==>
        rows == old(rows) && linkCache == old(linkCache) && titleHashCache == old(titleHashCache)
    {
      var success, message := SaveNewsItem(item, now, queryFails, commitError);
      info := Tally(item.title, item.link, success, message);
    }

    /**
     * `save_news_items(items)`: saves each item in turn and tallies the
     * outcomes.  The store gains one row per saved entry, in order and with
     * that entry's link, and the link cache gains exactly those links, so a
     * saved item is an `exact_link_match` on any later batch.  The items'
     * tags are untouched.
     */
    method SaveNewsItems(items: seq<NewsItem>, now: DateTime, queryFails: nat -> bool, commitError: nat -> CommitTexts)
      returns (stats: Stats)
      requires Valid()
      modifies this`linkCache, this`titleHashCache, this`rows, items`titleHash, items`contentHash, items`domainField
      ensures Valid()
      ensures stats.total == |items| && |stats.processedItems| == |items| && Tallied(stats)
      ensures forall i :: 0 <= i < |items| ==>
        && InfoAgrees(stats.processedItems[i])
        && stats.processedItems[i].link == items[i].link
        && stats.processedItems[i].title == Abbreviated(items[i].title)
      ensures old(rows) <= rows && |rows| == |old(rows)| + stats.saved
      ensures LinksOf(rows[|old(rows)|..]) == SavedLinks(stats.processedItems)
      ensures linkCache == old(linkCache) + (set l | l in SavedLinks(stats.processedItems))
      ensures old(titleHashCache) <= titleHashCache
      ensures forall i :: 0 <= i < |items| && stats.processedItems[i].result == Saved ==>
        items[i].link in linkCache && HasLink(rows, items[i].link)
      ensures forall it :: it in items ==> it.tagsList == old(it.tagsList) && it.tagsStr == old(it.tagsStr)
    {
      stats := SaveEach(items, now, queryFails, commitError);
      BatchDone(rows, linkCache, titleHashCache, old(rows), old(linkCache), old(titleHashCache), items, stats);
    }

    /** The loop of `save_news_items`: one turn per item, in order, each saving and tallying it. */
    method SaveEach(items: seq<NewsItem>, now: DateTime, queryFails: nat -> bool, commitError: nat -> CommitTexts)
      returns (stats: Stats)
      requires Valid()
      modifies this`linkCache, this`titleHashCache, this`rows, items`titleHash, items`contentHash, items`domainField
      ensures Progress(old(rows), old(linkCache), old(titleHashCache), items, |items|, stats)
    {
      stats := Stats(|items|, 0, 0, 0, [], []);
      var i := 0;
      while i < |items|
        invariant 0 <= i <= |items|
        invariant Progress(old(rows), old(linkCache), old(titleHashCache), items, i, stats)
      {
        stats := SaveTurn(old(rows), old(linkCache), old(titleHashCache), items, i, items[i], stats, now,
                          queryFails(i), commitError(i));
        i := i + 1;
      }
    }

    /**
     * What the first `n` turns of `save_news_items` have done to a store that
     * held `base` with caches `baseLinks` and `baseHashes`: the statistics
     * count and describe the first `n` items, the store gained one row per
     * saved entry in order, and the link cache gained exactly their links.
     */
    ghost predicate Progress(base: seq<Row>, baseLinks: set<string>, baseHashes: set<string>,
                             items: seq<NewsItem>, n: nat, stats: Stats)
      reads this
    {
      BatchProgress(rows, linkCache, titleHashCache, base, baseLinks, baseHashes, items, n, stats)
    }

    /** Turn `n` of `save_news_items`: saves item `n` and records its outcome in the statistics. */
    method SaveTurn(ghost base: seq<Row>, ghost baseLinks: set<string>, ghost baseHashes: set<string>,
                    items: seq<NewsItem>, n: nat, item: NewsItem, stats: Stats, now: DateTime, queryFails: bool,
                    commitError: CommitTexts)
      returns (next: Stats)
      requires n < |items| && item == items[n] && Progress(base, baseLinks, baseHashes, items, n, stats)
      modifies this`linkCache, this`titleHashCache, this`rows, item`titleHash, item`contentHash, item`domainField
      ensures Progress(base, baseLinks, baseHashes, items, n + 1, next)
    {
      ghost var before, beforeLinks, beforeHashes := rows, linkCache, titleHashCache;
      var info := SaveAndTally(item, now, queryFails, commitError);
      ProgressStep(before, beforeLinks, beforeHashes, rows, linkCache, titleHashCache, StoredRow(item, now), item.titleHash,
                   base, baseLinks, baseHashes, items, n, stats, info);
      next := Record(stats, info);
    }

    /** `clean_old_duplicates(days)`: in each title-hash group of rows created on or before `now - days`,
        deletes all but the newest; returns how many it deleted, 0 with nothing deleted when the store
        raises or the cutoff overflows. */
    method CleanOldDuplicates(now: DateTime, days: int, fails: bool) returns (removed: nat)
      requires Valid()
      modifies this`rows
      ensures Valid()
      ensures fails || !CutoffInRange(now, days) ==> removed == 0 && rows == old(rows)
      ensures !fails && CutoffInRange(now, days) ==> rows == Kept(old(rows), |old(rows)|, now, days)
      ensures !fails && CutoffInRange(now, days) ==>
        removed == |OldIndices(old(rows), now, days)| - |OldHashes(old(rows), now, days)|
      ensures removed == |old(rows)| - |rows|
    {
      if fails || !CutoffInRange(now, days) {
        return 0;
      }
      var stored := rows;
      var kept;
      kept, removed := Sweep(stored, now, days);
      CleanSummary(stored, now, days);
      rows := kept;
    }

    /** `get_recent_news(days, limit, source)`: the selected rows newest first, at most `limit` of them
        (all when `limit` is negative, as SQLite reads it); none when the query raises or the cutoff
        overflows. */
    function GetRecentNews(now: DateTime, days: int, limit: int, source: string, fails: bool): (r: seq<Row>)
      reads this
      ensures fails || !CutoffInRange(now, days) ==> r == []
      ensures limit >= 0 ==> |r| <= limit
      ensures forall x :: x in r ==> x in rows && Selected(x, now, days, source)
      ensures forall i, j :: 0 <= i < j < |r| ==> Ticks(r[i].publishedDate) >= Ticks(r[j].publishedDate)
      ensures multiset(r) <= multiset(Select(rows, now, days, source))
      ensures !fails && CutoffInRange(now, days) && (limit < 0 || limit >= |Select(rows, now, days, source)|) ==>
        multiset(r) == multiset(Select(rows, now, days, source))
      ensures !fails && CutoffInRange(now, days) && 0 <= limit < |Select(rows, now, days, source)| ==>
        && |r| == limit
        && forall x, y :: x in Select(rows, now, days, source) && x !in r && y in r ==>
             Ticks(x.publishedDate) <= Ticks(y.publishedDate)
    {
      if fails || !CutoffInRange(now, days) then []
      else
        NewestPrefix(Select(rows, now, days, source), limit);
        FirstRows(NewestFirst(Select(rows, now, days, source)), limit)
    }
  }

  /** The links of the entries recorded as saved, in order. */
  function SavedLinks(processed: seq<ItemInfo>): (ls: seq<string>)
    ensures |ls| == CountResult(processed, Saved)
  {
    if processed == [] then []
    else
      SavedLinks(processed[..|processed| - 1])
      + (if processed[|processed| - 1].result == Saved then [processed[|processed| - 1].link] else [])
  }

  /** No more links are saved than there are entries. */
  lemma {:induction false} SavedLinksCount(processed: seq<ItemInfo>)
    ensures |SavedLinks(processed)| <= |processed|
  {
    if processed != [] {
      SavedLinksCount(processed[..|processed| - 1]);
    }
  }

  /** The links of the rows, in order. */
  function LinksOf(rows: seq<Row>): (ls: seq<string>)
    ensures |ls| == |rows| && forall i :: 0 <= i < |rows| ==> ls[i] == rows[i].link
  {
    seq(|rows|, i requires 0 <= i < |rows| => rows[i].link)
  }

  lemma {:induction false} SavedStep(processed: seq<ItemInfo>, info: ItemInfo)
    ensures SavedLinks(processed + [info]) == SavedLinks(processed) + (if info.result == Saved then [info.link] else [])
  {
    assert (processed + [info])[..|processed|] == processed;
  }

  /**
   * What the first `n` turns of `save_news_items` have done to a store that
   * held `base` with caches `baseLinks` and `baseHashes`, now `rows` with
   * caches `links` and `hashes`.
   */
  ghost predicate BatchProgress(rows: seq<Row>, links: set<string>, hashes: set<string>,
                                base: seq<Row>, baseLinks: set<string>, baseHashes: set<string>,
                                items: seq<NewsItem>, n: nat, stats: Stats)
  {
    && n <= |items| && LinksUnique(rows)
    && stats.total == |items| && |stats.processedItems| == n && Tallied(stats)
    && Describes(stats.processedItems, items, n)
    && base <= rows && |rows| == |base| + stats.saved
    && LinksOf(rows[|base|..]) == SavedLinks(stats.processedItems)
    && links == baseLinks + (set l | l in SavedLinks(stats.processedItems))
    && baseHashes <= hashes
    && forall j :: 0 <= j < n && stats.processedItems[j].result == Saved ==>
         items[j].link in links && HasLink(rows, items[j].link)
  }

  /** Once every item has had its turn, the progress states the whole batch's outcome. */
  lemma {:induction false} BatchDone(rows: seq<Row>, links: set<string>, hashes: set<string>,
                                     base: seq<Row>, baseLinks: set<string>, baseHashes: set<string>,
                                     items: seq<NewsItem>, stats: Stats)
    requires BatchProgress(rows, links, hashes, base, baseLinks, baseHashes, items, |items|, stats)
    ensures LinksUnique(rows)
    ensures stats.total == |items| && |stats.processedItems| == |items| && Tallied(stats)
    ensures forall i :: 0 <= i < |items| ==>
      && InfoAgrees(stats.processedItems[i])
      && stats.processedItems[i].link == items[i].link
      && stats.processedItems[i].title == Abbreviated(items[i].title)
    ensures base <= rows && |rows| == |base| + stats.saved
    ensures LinksOf(rows[|base|..]) == SavedLinks(stats.processedItems)
    ensures links == baseLinks + (set l | l in SavedLinks(stats.processedItems))
    ensures baseHashes <= hashes
    ensures forall i :: 0 <= i < |items| && stats.processedItems[i].result == Saved ==>
      items[i].link in links && HasLink(rows, items[i].link)
  {
  }

  /** One turn that records `info` and, when it is `saved`, appends `row` and caches its link and `hash`,
      takes the progress over `n` items to the progress over `n + 1`. */
  lemma {:induction false} ProgressStep(rows: seq<Row>, links: set<string>, hashes: set<string>,
                                        rows': seq<Row>, links': set<string>, hashes': set<string>,
                                        row: Row, hash: string,
                                        base: seq<Row>, baseLinks: set<string>, baseHashes: set<string>,
                                        items: seq<NewsItem>, n: nat, stats: Stats, info: ItemInfo)
    requires BatchProgress(rows, links, hashes, base, baseLinks, baseHashes, items, n, stats) && n < |items|
    requires LinksUnique(rows') && InfoAgrees(info)
    requires info.link == items[n].link && info.title == Abbreviated(items[n].title) && row.link == info.link
    requires info.result == Saved ==> rows' == rows + [row] && links' == links + {info.link} && hashes' == hashes + {hash}
    requires info.result != Saved ==> rows' == rows && links' == links && hashes' == hashes
    ensures BatchProgress(rows', links', hashes', base, baseLinks, baseHashes, items, n + 1, Record(stats, info))
  {
    RecordTallied(stats, info);
    SavedStep(stats.processedItems, info);
    CacheStep(baseLinks, links, links', stats.processedItems, info);
    GrowsWith(base, rows, rows', info.result == Saved);
    DescribesStep(stats.processedItems, items, n, info);
    var next := Record(stats, info);
    assert next.processedItems == stats.processedItems + [info];
    forall j | 0 <= j < n + 1 && next.processedItems[j].result == Saved
      ensures items[j].link in links' && HasLink(rows', items[j].link)
    {
      if j < n {
        assert next.processedItems[j] == stats.processedItems[j];
      } else {
        assert next.processedItems[j] == info;
        assert rows'[|rows|] == row;
      }
    }
  }

  /** Entry `j` records item `j`, for each of the first `n`: its link, its abbreviated title, and a
      result that agrees with its status. */
  predicate Describes(processed: seq<ItemInfo>, items: seq<NewsItem>, n: nat) {
    && |processed| == n <= |items|
    && forall j :: 0 <= j < n ==>
         && InfoAgrees(processed[j])
         && processed[j].link == items[j].link
         && processed[j].title == Abbreviated(items[j].title)
  }

  lemma {:induction false} DescribesStep(processed: seq<ItemInfo>, items: seq<NewsItem>, n: nat, info: ItemInfo)
    requires Describes(processed, items, n) && n < |items|
    requires InfoAgrees(info) && info.link == items[n].link && info.title == Abbreviated(items[n].title)
    ensures Describes(processed + [info], items, n + 1)
  {
  }

  /** The link cache holds the base links and the saved ones, one turn after another. */
  lemma {:induction false} CacheStep(base: set<string>, before: set<string>, after: set<string>,
                                     processed: seq<ItemInfo>, info: ItemInfo)
    requires before == base + (set l | l in SavedLinks(processed))
    requires info.result == Saved ==> after == before + {info.link}
    requires info.result != Saved ==> after == before
    ensures after == base + (set l | l in SavedLinks(processed + [info]))
  {
    SavedStep(processed, info);
  }

  /** A store that grew from `base` to `mid` and then by at most one row still extends `base`,
      its new links one more when a row was added, and every link it had it keeps. */
  lemma {:induction false} GrowsWith(base: seq<Row>, mid: seq<Row>, rows: seq<Row>, added: bool)
    requires base <= mid
    requires added ==> |rows| == |mid| + 1 && rows[..|mid|] == mid
    requires !added ==> rows == mid
    ensures base <= rows
    ensures added ==> LinksOf(rows[|base|..]) == LinksOf(mid[|base|..]) + [rows[|mid|].link]
    ensures !added ==> LinksOf(rows[|base|..]) == LinksOf(mid[|base|..])
    ensures forall l :: HasLink(mid, l) ==> HasLink(rows, l)
    ensures added ==> HasLink(rows, rows[|mid|].link)
  {
    if added {
      assert rows == mid + [rows[|mid|]];
      assert rows[|base|..] == mid[|base|..] + [rows[|mid|]];
      forall l | HasLink(mid, l) ensures HasLink(rows, l) {
        var k :| 0 <= k < |mid| && mid[k].link == l;
        assert rows[k] == mid[k];
      }
    }
  }

  /** The entry `save_news_items` records for one outcome of `save_news_item`. */
  function Tally(title: string, link: string, success: bool, message: string): (p: ItemInfo)
    requires success ==> message == SavedMessage
    requires !success ==> DuplicatePrefix <= message || ErrorPrefix <= message
    ensures InfoAgrees(p) && p.title == Abbreviated(title) && p.link == link && p.status == message
    ensures p.result == Saved <==> success
  {
    if success then
      StatusKinds("", "");
      ItemInfo(Abbreviated(title), link, message, Saved)
    else if DuplicatePrefix <= message then
      assert message == DuplicatePrefix + message[|DuplicatePrefix|..];
      StatusKinds(message[|DuplicatePrefix|..], "");
      ItemInfo(Abbreviated(title), link, message, Duplicate)
    else
      assert message == ErrorPrefix + message[|ErrorPrefix|..];
      StatusKinds("", message[|ErrorPrefix|..]);
      ItemInfo(Abbreviated(title), link, message, Error)
  }

  /** Appending a row whose link is new keeps the links unique. */
  lemma {:induction false} AppendUnique(rows: seq<Row>, r: Row)
    requires LinksUnique(rows) && !HasLink(rows, r.link)
    ensures LinksUnique(rows + [r])
  {
    var s := rows + [r];
    forall i, j | 0 <= i < j < |s| ensures s[i].link != s[j].link {
      assert s[i] == rows[i];
      if j < |rows| { assert s[j] == rows[j]; }
    }
  }

  /** The indices among the first `n` that the cleaning deletes. */
  function Dropped(rows: seq<Row>, n: nat, now: DateTime, days: int): set<nat>
    requires n <= |rows|
  {
    set k: nat | k < n && !Keeps(rows, k, now, days)
  }

  lemma {:induction false} DroppedStep(rows: seq<Row>, n: nat, now: DateTime, days: int)
    requires n < |rows|
    ensures n !in Dropped(rows, n, now, days)
    ensures Dropped(rows, n + 1, now, days) ==
      Dropped(rows, n, now, days) + (if Keeps(rows, n, now, days) then {} else {n})
  {
  }

  /** The deleted rows are the old ones that are not the newest of their group. */
  lemma {:induction false} DroppedAll(rows: seq<Row>, now: DateTime, days: int)
    ensures Dropped(rows, |rows|, now, days) == OldIndices(rows, now, days) - NewestIndices(rows, now, days)
    ensures |Dropped(rows, |rows|, now, days)| == |OldIndices(rows, now, days)| - |NewestIndices(rows, now, days)|
  {
    SubsetCard(OldIndices(rows, now, days), NewestIndices(rows, now, days));
  }

  /** The deletions of `clean_old_duplicates`, one row at a time: keeps the rows that are not old and
      the newest old row of each title-hash group, and counts the others. */
  method Sweep(stored: seq<Row>, now: DateTime, days: int) returns (kept: seq<Row>, removed: nat)
    ensures kept == Kept(stored, |stored|, now, days)
    ensures removed + |kept| == |stored|
  {
    kept := [];
    removed := 0;
    var i := 0;
    while i < |stored|
      invariant 0 <= i <= |stored|
      invariant kept == Kept(stored, i, now, days) && removed + |kept| == i
    {
      var keep := Keeps(stored, i, now, days);
      KeptStep(stored, i, now, days, keep);
      if keep {
        kept := kept + [stored[i]];
      } else {
        removed := removed + 1;
      }
      i := i + 1;
    }
  }

  lemma {:induction false} KeptStep(rows: seq<Row>, n: nat, now: DateTime, days: int, keep: bool)
    requires n < |rows| && keep == Keeps(rows, n, now, days)
    ensures Kept(rows, n + 1, now, days) == Kept(rows, n, now, days) + (if keep then [rows[n]] else [])
  {
  }

  /** Every row among the first `n` is kept or dropped. */
  lemma {:induction false} KeptDropped(rows: seq<Row>, n: nat, now: DateTime, days: int)
    requires n <= |rows|
    ensures |Kept(rows, n, now, days)| + |Dropped(rows, n, now, days)| == n
  {
    if n > 0 {
      KeptDropped(rows, n - 1, now, days);
      var k := Keeps(rows, n - 1, now, days);
      KeptStep(rows, n - 1, now, days, k);
      DroppedCard(rows, n - 1, now, days, k);
    } else {
      assert Dropped(rows, 0, now, days) == {};
    }
  }

  lemma {:induction false} DroppedCard(rows: seq<Row>, n: nat, now: DateTime, days: int, keep: bool)
    requires n < |rows| && keep == Keeps(rows, n, now, days)
    ensures |Dropped(rows, n + 1, now, days)| == |Dropped(rows, n, now, days)| + (if keep then 0 else 1)
  {
    DroppedStep(rows, n, now, days);
  }

  /** What the cleaning leaves and how many rows it deletes. */
  lemma {:induction false} CleanSummary(rows: seq<Row>, now: DateTime, days: int)
    requires LinksUnique(rows)
    ensures LinksUnique(Kept(rows, |rows|, now, days))
    ensures |rows| - |Kept(rows, |rows|, now, days)| == |OldIndices(rows, now, days)| - |OldHashes(rows, now, days)|
  {
    DroppedAll(rows, now, days);
    NewestCount(rows, now, days);
    KeptUnique(rows, |rows|, now, days);
    KeptDropped(rows, |rows|, now, days);
  }

  /** The rows left by the cleaning keep the store's links unique. */
  lemma {:induction false} KeptUnique(rows: seq<Row>, n: nat, now: DateTime, days: int)
    requires n <= |rows| && LinksUnique(rows)
    ensures LinksUnique(Kept(rows, n, now, days))
    ensures forall r :: r in Kept(rows, n, now, days) ==> r in rows[..n]
  {
    if n > 0 {
      KeptUnique(rows, n - 1, now, days);
      var k := Kept(rows, n - 1, now, days);
      if Keeps(rows, n - 1, now, days) {
        var k' := k + [rows[n - 1]];
        forall r | r in k' ensures r in rows[..n] {
          if r in k { assert r in rows[..n - 1]; var m :| 0 <= m < n - 1 && rows[m] == r; assert rows[..n][m] == r; }
          else { assert rows[..n][n - 1] == r; }
        }
        forall a, b | 0 <= a < b < |k'| ensures k'[a].link != k'[b].link {
          if b < |k| {
            assert k'[a] == k[a] && k'[b] == k[b];
          } else {
            assert k'[a] == k[a] && k[a] in rows[..n - 1];
            var m :| 0 <= m < n - 1 && rows[m] == k[a];
          }
        }
      } else {
        assert k + [] == k;
        forall r | r in k ensures r in rows[..n] { var m :| 0 <= m < n - 1 && rows[m] == r; assert rows[..n][m] == r; }
      }
    }
  }

  /** A `duplicate_` status names one reason; any other status names none. */
  lemma {:induction false} StatusStep(processed: seq<ItemInfo>, info: ItemInfo, reason: string, k: string)
    requires processed != [] && processed[|processed| - 1] == info
    ensures info.status == DuplicatePrefix + reason ==>
      CountStatus(processed, DuplicatePrefix + k) == CountStatus(processed[..|processed| - 1], DuplicatePrefix + k) + (if k == reason then 1 else 0)
    ensures !(DuplicatePrefix <= info.status) ==>
      CountStatus(processed, DuplicatePrefix + k) == CountStatus(processed[..|processed| - 1], DuplicatePrefix + k)
  {
    assert DuplicatePrefix <= DuplicatePrefix + k;
    if info.status == DuplicatePrefix + reason && DuplicatePrefix + k == DuplicatePrefix + reason {
      assert k == (DuplicatePrefix + k)[|DuplicatePrefix|..];
    }
  }

  /** A nested annotation keeps its inner annotation: `re.sub` does not rescan what it has produced,
      so `((1 minute read)1 minute read)`, say, comes out of the removal as `(1 minute read)`,
      which is still a whole annotation. */
  lemma {:induction false} NestedAnnotationSurvives(digits: string, gap1: string, minute: string, gap2: string, read: string)
    requires WellFormed(digits, gap1, minute, gap2, read, true)
    ensures var p := Parens(digits, gap1, minute, gap2, read);
      && RemoveAll("(" + p + p[1..], true, true) == p
      && MatchAt(p, true, true) == Some(|p|)
  {
    var p := Parens(digits, gap1, minute, gap2, read);
    AnnotationMatches("", digits, gap1, minute, gap2, read, "", true, true);
    assert "" + p + "" == p;
    var u := p[1..];
    assert u == digits + (gap1 + (minute + (gap2 + (read + ")"))));
    assert IsDigit(u[0]);
    assert '(' !in digits;
    assert '(' !in gap1 && '(' !in gap2 by {
      assert !IsSpace('(');
    }
    NoOpenIn(minute, "minute");
    NoOpenIn(read, "read");
    NestedSurvives(p, u);
    assert "(" + u == p;
  }

  /** A word spelled like a word without `(` has none either. */
  lemma {:induction false} NoOpenIn(w: string, word: string)
    requires Spelled(w, word, true) && '(' !in word
    ensures '(' !in w
  {
    forall k | 0 <= k < |w| ensures w[k] != '(' {
      assert SameLetter(w[k], word[k], true) && word[k] in word;
    }
  }

  /** `(` followed by a whole match `p` and unmatched text `u` loses only `p`. */
  lemma {:induction false} NestedSurvives(p: string, u: string)
    requires p != [] && p[0] == '(' && MatchAt(p, true, true) == Some(|p|)
    requires u != [] && IsDigit(u[0]) && '(' !in u
    ensures RemoveAll("(" + p + u, true, true) == "(" + u
  {
    var s := "(" + p + u;
    assert s[0] == '(';
    NoMatchAtOpen(s);
    assert s[1..] == p + u;
    MatchConcat(p, u, true, true);
    assert SkipClass(u, 0, Space) == 0;
    RemoveAtMatch(p + u, |p|, true, true);
    assert (p + u)[|p|..] == u;
    RemoveAllPlain(u, true, true);
  }

  /** Nothing matches at `((`-less `(x` when `x` does not start with a digit. */
  lemma {:induction false} NoMatchAtOpen(s: string)
    requires |s| >= 2 && s[0] == '(' && !IsDigit(s[1])
    ensures MatchAt(s, true, true).None?
  {
    assert SkipClass(s, 0, Space) == 0;
    MatchAtUnfold(s, true, true);
    ParenStep(s, 0, true);
    assert Body[0] == Many(Digit, true);
    assert SkipClass(s, 1, Digit) == 1;
    assert MatchFrom(s, 1, Body, true).None?;
    MatchFromAppend(s, 0, Parenthesised, Spaces, true);
  }
}
