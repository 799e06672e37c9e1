/**
 * The Python string operations the ingestion pipeline relies on, over
 * `string` (a sequence of Unicode scalar values, like a Python `str`).
 * Character classes follow Python: `IsSpace` is `str.isspace()`, which is
 * also what `\s` matches in a `str` regular expression.  Case mapping,
 * `\d` and `\w` are modelled on ASCII only.
 */
module Text {

  /** `str.isspace()`, and the class `\s` of Python's `re` on `str` patterns. */
  predicate IsSpace(c: char) {
    || c == ' '
    || ('\t' <= c <= '\r')
    || ('\U{1C}' <= c <= '\U{1F}')
    || c == '\U{85}' || c == '\U{A0}' || c == '\U{1680}'
    || ('\U{2000}' <= c <= '\U{200A}')
    || c == '\U{2028}' || c == '\U{2029}' || c == '\U{202F}' || c == '\U{205F}' || c == '\U{3000}'
  }

  predicate IsDigit(c: char) { '0' <= c <= '9' }
  predicate IsUpper(c: char) { 'A' <= c <= 'Z' }
  predicate IsLowerLetter(c: char) { 'a' <= c <= 'z' }
  predicate IsLetter(c: char) { IsUpper(c) || IsLowerLetter(c) }
  /** `\w`: letters, digits and the underscore. */
  predicate IsWordChar(c: char) { IsLetter(c) || IsDigit(c) || c == '_' }

  function ToLowerChar(c: char): char { if IsUpper(c) then (c as int + 32) as char else c }
  function ToUpperChar(c: char): char { if IsLowerLetter(c) then (c as int - 32) as char else c }

  /** `str.lower()`. */
  function Lower(s: string): string {
    seq(|s|, i requires 0 <= i < |s| => ToLowerChar(s[i]))
  }

  /** No upper-case letter occurs in `s`. */
  predicate NoUpper(s: string) {
    forall c :: c in s ==> !IsUpper(c)
  }

  predicate AllSpace(s: string) {
    forall i :: 0 <= i < |s| ==> IsSpace(s[i])
  }

  /** `str.lstrip()`: drops the leading whitespace. */
  function LStrip(s: string): (r: string)
    ensures |r| <= |s| && r == s[|s| - |r|..]
    ensures AllSpace(s[..|s| - |r|])
    ensures r == [] || !IsSpace(r[0])
  {
    if s != [] && IsSpace(s[0]) then
      var r := LStrip(s[1..]);
      assert s[..|s| - |r|] == [s[0]] + s[1..][..|s| - 1 - |r|];
      r
    else s
  }

  /** `str.rstrip()`: drops the trailing whitespace. */
  function RStrip(s: string): (r: string)
    ensures |r| <= |s| && r == s[..|r|]
    ensures AllSpace(s[|r|..])
    ensures r == [] || !IsSpace(r[|r| - 1])
  {
    if s != [] && IsSpace(s[|s| - 1]) then
      var r := RStrip(s[..|s| - 1]);
      assert s[|r|..] == s[..|s| - 1][|r|..] + [s[|s| - 1]];
      r
    else s
  }

  /** `str.strip()`. */
  function Strip(s: string): (r: string)
    ensures r == [] || (!IsSpace(r[0]) && !IsSpace(r[|r| - 1]))
  {
    RStrip(LStrip(s))
  }

  /** Every whitespace character is a plain space and no two of them are adjacent. */
  predicate SingleSpaced(s: string) {
    && (forall i :: 0 <= i < |s| && IsSpace(s[i]) ==> s[i] == ' ')
    && (forall i :: 0 <= i < |s| - 1 ==> !(IsSpace(s[i]) && IsSpace(s[i + 1])))
  }

  /** `re.sub(r'\s+', ' ', s)`: every maximal whitespace run becomes one space. */
  function CollapseWs(s: string): string
    decreases |s|
  {
    if s == [] then []
    else if IsSpace(s[0]) then
      var rest := LStrip(s);
      assert |rest| < |s|;
      [' '] + CollapseWs(rest)
    else
      [s[0]] + CollapseWs(s[1..])
  }

  /** The characters of `s` other than whitespace, in order. */
  function NonSpace(s: string): (r: string)
    ensures |r| <= |s|
  {
    if s == [] then [] else (if IsSpace(s[0]) then [] else [s[0]]) + NonSpace(s[1..])
  }

  lemma {:induction false} NonSpaceAppend(a: string, b: string)
    ensures NonSpace(a + b) == NonSpace(a) + NonSpace(b)
  {
    if a == [] {
      assert a + b == b;
    } else {
      assert (a + b)[0] == a[0];
      assert (a + b)[1..] == a[1..] + b;
      NonSpaceAppend(a[1..], b);
    }
  }

  lemma {:induction false} NonSpaceOfSpace(w: string)
    requires AllSpace(w)
    ensures NonSpace(w) == []
  {
    if w != [] {
      NonSpaceOfSpace(w[1..]);
    }
  }

  /** Stripping keeps every character other than whitespace. */
  lemma {:induction false} NonSpaceStrip(s: string)
    ensures NonSpace(LStrip(s)) == NonSpace(s)
    ensures NonSpace(RStrip(s)) == NonSpace(s)
    ensures NonSpace(Strip(s)) == NonSpace(s)
  {
    NonSpaceLStrip(s);
    NonSpaceRStrip(s);
    NonSpaceRStrip(LStrip(s));
  }

  lemma {:induction false} NonSpaceLStrip(s: string)
    ensures NonSpace(LStrip(s)) == NonSpace(s)
  {
    var l := LStrip(s);
    var w := s[..|s| - |l|];
    assert s == w + l;
    NonSpaceAppend(w, l);
    NonSpaceOfSpace(w);
  }

  lemma {:induction false} NonSpaceRStrip(s: string)
    ensures NonSpace(RStrip(s)) == NonSpace(s)
  {
    var r := RStrip(s);
    var w := s[|r|..];
    assert s == r + w;
    NonSpaceAppend(r, w);
    NonSpaceOfSpace(w);
  }

  /** Lower-casing and dropping whitespace commute, since lower-casing keeps whitespace. */
  lemma {:induction false} NonSpaceLower(t: string)
    ensures NonSpace(Lower(t)) == Lower(NonSpace(t))
    decreases |t|
  {
    if t != [] {
      var head := if IsSpace(t[0]) then [] else [t[0]];
      assert Lower(t) == [ToLowerChar(t[0])] + Lower(t[1..]);
      assert Lower(t)[1..] == Lower(t[1..]);
      LowerKeepsSpace(t[0]);
      NonSpaceLower(t[1..]);
      LowerAppend(head, NonSpace(t[1..]));
    }
  }

  lemma {:induction false} LowerAppend(a: string, b: string)
    ensures Lower(a + b) == Lower(a) + Lower(b)
  {
    assert forall i :: 0 <= i < |a + b| ==> Lower(a + b)[i] == (Lower(a) + Lower(b))[i];
  }

  /** What collapsing `s` into `r` leaves: single-spaced text no longer than `s`, with the other
      characters of `s`, all of them and in order, a space at either end exactly where `s` had
      whitespace there. */
  predicate Collapsed(r: string, s: string) {
    && |r| <= |s|
    && (r == [] <==> s == [])
    && (forall c :: c in r ==> c == ' ' || (c in s && !IsSpace(c)))
    && NonSpace(r) == NonSpace(s)
    && SingleSpaced(r)
    && ((r != [] && r[0] == ' ') <==> (s != [] && IsSpace(s[0])))
    && ((r != [] && r[|r| - 1] == ' ') <==> (s != [] && IsSpace(s[|s| - 1])))
  }

  /** Collapsing a lower-case text without whitespace at either end gives a lower-case,
      single-spaced text without whitespace at either end, and with the same other characters. */
  lemma {:induction false} CollapsedShape(r: string, s: string)
    requires Collapsed(r, s) && NoUpper(s)
    requires s == [] || (!IsSpace(s[0]) && !IsSpace(s[|s| - 1]))
    ensures NoUpper(r) && SingleSpaced(r) && NonSpace(r) == NonSpace(s)
    ensures r == [] || (!IsSpace(r[0]) && !IsSpace(r[|r| - 1]))
  {
    forall c | c in r ensures !IsUpper(c) {
      assert c == ' ' || c in s;
    }
  }

  lemma {:induction false} CollapseWsShape(s: string)
    ensures Collapsed(CollapseWs(s), s)
    decreases |s|
  {
    if s != [] {
      CollapseWsUnfold(s);
      if IsSpace(s[0]) {
        CollapseWsShape(LStrip(s));
        CollapsedSpace(s, CollapseWs(LStrip(s)));
      } else {
        CollapseWsShape(s[1..]);
        CollapsedChar(s, CollapseWs(s[1..]));
      }
    }
  }

  /** A space before single-spaced text that does not start with a space keeps it single-spaced. */
  lemma {:induction false} SingleSpacedSpace(t: string)
    requires SingleSpaced(t) && (t == [] || t[0] != ' ')
    ensures SingleSpaced([' '] + t)
  {
    var r := [' '] + t;
    forall i | 0 <= i < |r| - 1 ensures !(IsSpace(r[i]) && IsSpace(r[i + 1])) {
      if i > 0 { assert r[i] == t[i - 1] && r[i + 1] == t[i]; }
      else { assert r[1] == t[0]; }
    }
    forall i | 0 <= i < |r| && IsSpace(r[i]) ensures r[i] == ' ' {
      if i > 0 { assert r[i] == t[i - 1]; }
    }
  }

  /** A character other than whitespace before single-spaced text keeps it single-spaced. */
  lemma {:induction false} SingleSpacedChar(c: char, t: string)
    requires !IsSpace(c) && SingleSpaced(t)
    ensures SingleSpaced([c] + t)
  {
    var r := [c] + t;
    forall i | 0 <= i < |r| - 1 ensures !(IsSpace(r[i]) && IsSpace(r[i + 1])) {
      if i > 0 { assert r[i] == t[i - 1] && r[i + 1] == t[i]; }
    }
    forall i | 0 <= i < |r| && IsSpace(r[i]) ensures r[i] == ' ' {
      assert i > 0 && r[i] == t[i - 1];
    }
  }

  /** The characters of `[' '] + t`, when those of `t` are spaces or come from the stripped `s`. */
  lemma {:induction false} SpaceMembers(s: string, t: string)
    requires forall c :: c in t ==> c == ' ' || (c in LStrip(s) && !IsSpace(c))
    ensures forall c :: c in [' '] + t ==> c == ' ' || (c in s && !IsSpace(c))
  {
    var rest := LStrip(s);
    forall c | c in [' '] + t ensures c == ' ' || (c in s && !IsSpace(c)) {
      if c != ' ' {
        assert c in t && c in rest;
        var k :| 0 <= k < |rest| && rest[k] == c;
        assert s[|s| - |rest| + k] == c;
      }
    }
  }

  /** `[' '] + t` ends in a space exactly when `s`, which starts with whitespace, ends in whitespace. */
  lemma {:induction false} SpaceEnds(s: string, t: string)
    requires s != [] && IsSpace(s[0])
    requires (t == [] <==> LStrip(s) == [])
    requires (t != [] && t[|t| - 1] == ' ') <==> (LStrip(s) != [] && IsSpace(LStrip(s)[|LStrip(s)| - 1]))
    ensures (([' '] + t)[|t|] == ' ') <==> IsSpace(s[|s| - 1])
  {
    var rest := LStrip(s);
    if rest == [] {
      assert s[..|s|] == s;
      assert IsSpace(s[..|s|][|s| - 1]);
    } else {
      assert rest == s[|s| - |rest|..];
      assert s[|s| - 1] == rest[|rest| - 1];
      assert ([' '] + t)[|t|] == t[|t| - 1];
    }
  }

  lemma {:induction false} CollapsedSpace(s: string, t: string)
    requires s != [] && IsSpace(s[0]) && Collapsed(t, LStrip(s))
    ensures Collapsed([' '] + t, s)
  {
    var rest := LStrip(s);
    SpaceMembers(s, t);
    assert rest == [] || !IsSpace(rest[0]);
    SingleSpacedSpace(t);
    SpaceEnds(s, t);
    NonSpaceSpace(s, t);
  }

  /** A space in place of leading whitespace keeps the other characters. */
  lemma {:induction false} NonSpaceSpace(s: string, t: string)
    requires s != [] && IsSpace(s[0]) && NonSpace(t) == NonSpace(LStrip(s))
    ensures NonSpace([' '] + t) == NonSpace(s)
  {
    assert ([' '] + t)[1..] == t;
    NonSpaceLStrip(s);
  }

  lemma {:induction false} CollapsedChar(s: string, t: string)
    requires s != [] && !IsSpace(s[0]) && Collapsed(t, s[1..])
    ensures Collapsed([s[0]] + t, s)
  {
    var rest := s[1..];
    var r := [s[0]] + t;
    forall c | c in r ensures c == ' ' || (c in s && !IsSpace(c)) {
      if c != s[0] { assert c in t; }
    }
    SingleSpacedChar(s[0], t);
    assert r[1..] == t;
    if rest != [] {
      assert s[|s| - 1] == rest[|rest| - 1];
    }
  }

  /** The longest prefix of `s` without whitespace. */
  function WordPrefix(s: string): (w: string)
    ensures w <= s
    ensures forall i :: 0 <= i < |w| ==> !IsSpace(w[i])
    ensures |w| == |s| || IsSpace(s[|w|])
  {
    if s == [] || IsSpace(s[0]) then [] else [s[0]] + WordPrefix(s[1..])
  }

  /** `s.split()`: the maximal runs of non-whitespace characters, in order. */
  function Words(s: string): seq<string>
    decreases |s|
  {
    var t := LStrip(s);
    if t == [] then []
    else
      var w := WordPrefix(t);
      [w] + Words(t[|w|..])
  }

  /** `len(s.split())`. */
  function WordCount(s: string): nat {
    |Words(s)|
  }

  /** Python's `sub in s`. */
  predicate Contains(s: string, sub: string)
    decreases |s|
  {
    sub <= s || (s != [] && Contains(s[1..], sub))
  }

  /** `sep.join(parts)` for a one-character separator. */
  function Join(parts: seq<string>, sep: char): string {
    if parts == [] then ""
    else if |parts| == 1 then parts[0]
    else parts[0] + [sep] + Join(parts[1..], sep)
  }

  /** `s.split(sep)` for a one-character separator: never empty, `[""]` for `""`. */
  function Split(s: string, sep: char): (parts: seq<string>)
    ensures |parts| >= 1
    ensures forall i :: 0 <= i < |parts| ==> sep !in parts[i]
    decreases |s|
  {
    if sep !in s then [s]
    else
      var i := IndexOf(s, sep);
      [s[..i]] + Split(s[i + 1..], sep)
  }

  /** The first index of `c` in `s`. */
  function IndexOf(s: string, c: char): (i: nat)
    requires c in s
    ensures i < |s| && s[i] == c && c !in s[..i]
  {
    if s[0] == c then 0 else 1 + IndexOf(s[1..], c)
  }

  /** `str.title()`: a letter is upper-cased when the character before it is not a letter, lower-cased otherwise. */
  function TitleCase(s: string): string {
    TitleFrom(s, false)
  }

  function TitleFrom(s: string, previousIsCased: bool): string {
    if s == [] then []
    else
      var c := if previousIsCased then ToLowerChar(s[0]) else ToUpperChar(s[0]);
      [c] + TitleFrom(s[1..], IsLetter(s[0]))
  }

  /** Splitting a join gives the parts back when no part holds the separator. */
  lemma {:induction false} SplitJoin(parts: seq<string>, sep: char)
    requires parts != []
    requires forall i :: 0 <= i < |parts| ==> sep !in parts[i]
    ensures Split(Join(parts, sep), sep) == parts
  {
    if |parts| > 1 {
      var s := Join(parts, sep);
      assert s == parts[0] + [sep] + Join(parts[1..], sep);
      assert s[|parts[0]|] == sep;
      var i := IndexOf(s, sep);
      assert s[..|parts[0]|] == parts[0];
      assert i == |parts[0]|;
      assert s[i + 1..] == Join(parts[1..], sep);
      SplitJoin(parts[1..], sep);
    }
  }

  /** A join is empty exactly for no parts or a single empty part. */
  lemma {:induction false} JoinEmpty(parts: seq<string>, sep: char)
    ensures Join(parts, sep) == "" <==> (parts == [] || parts == [""])
  {
  }

  lemma {:induction false} LowerTitleFrom(s: string, previousIsCased: bool)
    ensures Lower(TitleFrom(s, previousIsCased)) == Lower(s)
  {
    if s != [] {
      LowerTitleFrom(s[1..], IsLetter(s[0]));
      var t := TitleFrom(s, previousIsCased);
      assert t[1..] == TitleFrom(s[1..], IsLetter(s[0]));
      assert Lower(t) == [Lower(t)[0]] + Lower(t[1..]);
      assert Lower(s) == [Lower(s)[0]] + Lower(s[1..]);
    }
  }

  /** Lower-casing undoes `title()`, so keywords that differ give titles that differ. */
  lemma {:induction false} LowerTitleCase(s: string)
    ensures Lower(TitleCase(s)) == Lower(s)
  {
    LowerTitleFrom(s, false);
  }

  lemma {:induction false} LowerOfNoUpper(s: string)
    requires NoUpper(s)
    ensures Lower(s) == s
  {
    assert forall i :: 0 <= i < |s| ==> s[i] in s;
  }

  /** Lower-casing leaves whitespace where it was. */
  lemma {:induction false} LowerKeepsSpace(c: char)
    ensures IsSpace(ToLowerChar(c)) == IsSpace(c)
  {
  }

  lemma {:induction false} LowerHasNoUpper(s: string)
    ensures NoUpper(Lower(s))
  {
    forall c | c in Lower(s) ensures !IsUpper(c) {
      var i :| 0 <= i < |s| && Lower(s)[i] == c;
    }
  }

  /** Lower-casing keeps a text free of whitespace at either end. */
  lemma {:induction false} LowerTrimmed(t: string)
    requires t == [] || (!IsSpace(t[0]) && !IsSpace(t[|t| - 1]))
    ensures var l := Lower(t); l == [] || (!IsSpace(l[0]) && !IsSpace(l[|l| - 1]))
  {
    if t != [] {
      LowerKeepsSpace(t[0]);
      LowerKeepsSpace(t[|t| - 1]);
    }
  }

  lemma {:induction false} AllSpaceCons(x: string)
    requires x != []
    ensures AllSpace(x) <==> IsSpace(x[0]) && AllSpace(x[1..])
  {
    if IsSpace(x[0]) && AllSpace(x[1..]) {
      forall i | 0 <= i < |x| ensures IsSpace(x[i]) { if i > 0 { assert x[i] == x[1..][i - 1]; } }
    }
  }

  lemma {:induction false} AllSpaceSnoc(y: string)
    requires y != []
    ensures AllSpace(y) <==> IsSpace(y[|y| - 1]) && AllSpace(y[..|y| - 1])
  {
    var y' := y[..|y| - 1];
    if IsSpace(y[|y| - 1]) && AllSpace(y') {
      forall i | 0 <= i < |y| ensures IsSpace(y[i]) { if i < |y| - 1 { assert y[i] == y'[i]; } }
    }
  }

  lemma {:induction false} LStripAppend(x: string, y: string)
    ensures LStrip(x + y) == if AllSpace(x) then LStrip(y) else LStrip(x) + y
  {
    if x == [] {
      assert x + y == y;
    } else {
      assert (x + y)[0] == x[0] && (x + y)[1..] == x[1..] + y;
      AllSpaceCons(x);
      if IsSpace(x[0]) {
        LStripAppend(x[1..], y);
      }
    }
  }

  lemma {:induction false} RStripUnfold(s: string)
    requires s != []
    ensures RStrip(s) == if IsSpace(s[|s| - 1]) then RStrip(s[..|s| - 1]) else s
  {
  }

  lemma {:induction false} RStripAppend(x: string, y: string)
    ensures RStrip(x + y) == if AllSpace(y) then RStrip(x) else x + RStrip(y)
    decreases |y|
  {
    if y == [] {
      assert x + y == x;
    } else {
      var s := x + y;
      var y' := y[..|y| - 1];
      var c := y[|y| - 1];
      assert s[|s| - 1] == c && s[..|s| - 1] == x + y';
      AllSpaceSnoc(y);
      RStripUnfold(s);
      RStripUnfold(y);
      if IsSpace(c) {
        RStripAppend(x, y');
      }
    }
  }

  lemma {:induction false} LStripAll(w: string)
    requires AllSpace(w)
    ensures LStrip(w) == []
  {
  }

  /** Whitespace appended to a string is stripped with the rest. */
  lemma {:induction false} StripSpaceSuffix(x: string, w: string)
    requires AllSpace(w)
    ensures Strip(x + w) == Strip(x)
  {
    LStripAppend(x, w);
    if AllSpace(x) {
      LStripAll(w);
      LStripAll(x);
    } else {
      RStripAppend(LStrip(x), w);
    }
  }

  /** A whitespace-free string has no line feed, and `SingleSpaced` text neither. */
  lemma {:induction false} SingleSpacedNoNewline(s: string)
    requires SingleSpaced(s)
    ensures '\n' !in s
  {
    if '\n' in s {
      var i :| 0 <= i < |s| && s[i] == '\n';
      assert IsSpace(s[i]);
    }
  }

  lemma {:induction false} SingleSpacedTail(s: string)
    requires s != [] && SingleSpaced(s)
    ensures SingleSpaced(s[1..])
  {
    var t := s[1..];
    forall i | 0 <= i < |t| - 1 ensures !(IsSpace(t[i]) && IsSpace(t[i + 1])) { assert t[i] == s[i + 1] && t[i + 1] == s[i + 2]; }
    forall i | 0 <= i < |t| && IsSpace(t[i]) ensures t[i] == ' ' { assert t[i] == s[i + 1]; }
  }

  lemma {:induction false} CollapseWsUnfold(s: string)
    requires s != []
    ensures CollapseWs(s) == if IsSpace(s[0]) then [' '] + CollapseWs(LStrip(s)) else [s[0]] + CollapseWs(s[1..])
  {
  }

  /** After a single space no whitespace follows. */
  lemma {:induction false} LStripAfterSpace(s: string)
    requires s != [] && SingleSpaced(s) && IsSpace(s[0])
    ensures s[0] == ' ' && LStrip(s) == s[1..]
  {
    var t := s[1..];
    if t != [] { assert t[0] == s[1]; }
    assert LStrip(t) == t;
  }

  /** Collapsing whitespace leaves single-spaced text as it is. */
  lemma {:induction false} CollapseWsKeeps(s: string)
    requires SingleSpaced(s)
    ensures CollapseWs(s) == s
    decreases |s|
  {
    if s != [] {
      var t := s[1..];
      SingleSpacedTail(s);
      CollapseWsKeeps(t);
      CollapseWsUnfold(s);
      if IsSpace(s[0]) {
        LStripAfterSpace(s);
        ConsSpace(s);
      } else {
        ConsFirst(s);
      }
    }
  }

  lemma {:induction false} ConsSpace(s: string)
    requires s != [] && s[0] == ' '
    ensures [' '] + s[1..] == s
  {
  }

  lemma {:induction false} ConsFirst(s: string)
    requires s != []
    ensures [s[0]] + s[1..] == s
  {
  }

  /** Any slice of single-spaced text is single-spaced. */
  lemma {:induction false} SingleSpacedSlice(s: string, a: nat, b: nat)
    requires SingleSpaced(s) && a <= b <= |s|
    ensures SingleSpaced(s[a..b])
  {
    var t := s[a..b];
    forall i | 0 <= i < |t| - 1 ensures !(IsSpace(t[i]) && IsSpace(t[i + 1])) { assert t[i] == s[a + i] && t[i + 1] == s[a + i + 1]; }
    forall i | 0 <= i < |t| && IsSpace(t[i]) ensures t[i] == ' ' { assert t[i] == s[a + i]; }
  }

  /** Single-spaced pieces stay single-spaced when no two whitespace characters meet at the seam. */
  lemma {:induction false} SingleSpacedConcat(x: string, y: string)
    requires SingleSpaced(x) && SingleSpaced(y)
    requires x == [] || y == [] || !IsSpace(x[|x| - 1]) || !IsSpace(y[0])
    ensures SingleSpaced(x + y)
  {
    var s := x + y;
    forall i | 0 <= i < |s| - 1 ensures !(IsSpace(s[i]) && IsSpace(s[i + 1])) {
      if i + 1 < |x| { assert s[i] == x[i] && s[i + 1] == x[i + 1]; }
      else if i >= |x| { assert s[i] == y[i - |x|] && s[i + 1] == y[i + 1 - |x|]; }
      else { assert s[i] == x[|x| - 1] && s[i + 1] == y[0]; }
    }
    forall i | 0 <= i < |s| && IsSpace(s[i]) ensures s[i] == ' ' {
      if i < |x| { assert s[i] == x[i]; } else { assert s[i] == y[i - |x|]; }
    }
  }

  /** Stripping single-spaced text leaves it single-spaced. */
  lemma {:induction false} StripSingleSpaced(s: string)
    requires SingleSpaced(s)
    ensures SingleSpaced(Strip(s))
  {
    var l := LStrip(s);
    SingleSpacedSlice(s, |s| - |l|, |s|);
    SingleSpacedSlice(l, 0, |RStrip(l)|);
  }

  /** Already trimmed, lower-case and single-spaced text is a fixed point of strip, lower and collapse. */
  lemma {:induction false} TidyFixed(s: string)
    requires NoUpper(s) && SingleSpaced(s)
    requires s == [] || (!IsSpace(s[0]) && !IsSpace(s[|s| - 1]))
    ensures CollapseWs(Lower(Strip(s))) == s
  {
    assert LStrip(s) == s;
    if s != [] {
      RStripUnfold(s);
    }
    LowerOfNoUpper(s);
    CollapseWsKeeps(s);
  }
}
