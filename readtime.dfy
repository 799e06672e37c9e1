/**
 * The "(N minute read)" annotation that the newsletter appends to titles,
 * and the regular expressions built around it:
 *
 *   - `\s*\(\d+\s+minute\s+read\)\s*`, case-insensitive, removed by the
 *     title normaliser of the duplicate detector (`Pattern(true)`, `ignoreCase`);
 *   - `\s*\(\d+\s+minute\s+read\)`, removed by the page extractor (`Pattern(false)`);
 *   - `\((\d+\s+minute\s+read)\)`, searched for by the page extractor (`Parenthesised`).
 *
 * A pattern is a sequence of tokens: a greedy run of one character class
 * (`\s*`, `\s+`, `\d+`) or a literal word.  In these patterns every run is
 * followed by a token that cannot start with a character of the run's
 * class, so backtracking never shortens a greedy run and the match that
 * starts at a given index is unique: `MatchFrom` computes its end.
 */
module ReadTime {
  import opened Wrappers
  import opened Text

  datatype Class = Space | Digit

  predicate InClass(c: char, cls: Class) {
    match cls
    case Space => IsSpace(c)
    case Digit => IsDigit(c)
  }

  /** The end of the run of `cls` characters that starts at `i`. */
  function SkipClass(s: string, i: nat, cls: Class): (j: nat)
    requires i <= |s|
    ensures i <= j <= |s|
    ensures j == |s| || !InClass(s[j], cls)
    decreases |s| - i
  {
    if i < |s| && InClass(s[i], cls) then SkipClass(s, i + 1, cls) else i
  }

  /** `c` is `w`, or an upper-case form of it when `ignoreCase`. */
  predicate SameLetter(c: char, w: char, ignoreCase: bool) {
    if ignoreCase then ToLowerChar(c) == w else c == w
  }

  /** `word` (written in lower case) stands at `i`. */
  predicate WordAt(s: string, i: nat, word: string, ignoreCase: bool)
    requires i <= |s|
    ensures WordAt(s, i, word, ignoreCase) ==> i + |word| <= |s|
    decreases |word|
  {
    word == [] || (i < |s| && SameLetter(s[i], word[0], ignoreCase) && WordAt(s, i + 1, word[1..], ignoreCase))
  }

  /** `\s*` is `Many(Space, false)`, `\d+` is `Many(Digit, true)`. */
  datatype Token = Many(cls: Class, atLeastOne: bool) | Lit(word: string)

  function Step(s: string, i: nat, t: Token, ignoreCase: bool): (j: Option<nat>)
    requires i <= |s|
    ensures j.Some? ==> i <= j.value <= |s|
  {
    match t
    case Many(cls, atLeastOne) =>
      var k := SkipClass(s, i, cls);
      if atLeastOne && k == i then None else Some(k)
    case Lit(word) =>
      if WordAt(s, i, word, ignoreCase) then Some(i + |word|) else None
  }

  /** The end of the match of `toks` that starts at `i`. */
  function MatchFrom(s: string, i: nat, toks: seq<Token>, ignoreCase: bool): (e: Option<nat>)
    requires i <= |s|
    ensures e.Some? ==> i <= e.value <= |s|
    decreases |toks|
  {
    if toks == [] then Some(i)
    else
      match Step(s, i, toks[0], ignoreCase)
      case None => None
      case Some(j) => MatchFrom(s, j, toks[1..], ignoreCase)
  }

  /** `\d+\s+minute\s+read\)` */
  const Body: seq<Token> := [Many(Digit, true), Many(Space, true), Lit("minute"), Many(Space, true), Lit("read)")]

  /** `\(\d+\s+minute\s+read\)` */
  const Parenthesised: seq<Token> := [Lit("(")] + Body

  /** `\s*` */
  const Spaces: seq<Token> := [Many(Space, false)]

  /** `\s*\(\d+\s+minute\s+read\)`, then `\s*` when `trailing`. */
  function Pattern(trailing: bool): seq<Token> {
    Spaces + Parenthesised + (if trailing then Spaces else [])
  }

  /** The fewest characters a match of `toks` covers. */
  function MinWidth(toks: seq<Token>): nat {
    if toks == [] then 0
    else
      (match toks[0]
       case Many(_, atLeastOne) => if atLeastOne then 1 else 0
       case Lit(word) => |word|) + MinWidth(toks[1..])
  }

  lemma {:induction false} MatchFromWidth(s: string, i: nat, toks: seq<Token>, ignoreCase: bool)
    requires i <= |s| && MatchFrom(s, i, toks, ignoreCase).Some?
    ensures i + MinWidth(toks) <= MatchFrom(s, i, toks, ignoreCase).value
    decreases |toks|
  {
    if toks != [] {
      var j := Step(s, i, toks[0], ignoreCase).value;
      MatchFromWidth(s, j, toks[1..], ignoreCase);
    }
  }

  lemma {:induction false} MinWidthAppend(p: seq<Token>, q: seq<Token>)
    ensures MinWidth(p + q) == MinWidth(p) + MinWidth(q)
    decreases |p|
  {
    if p == [] {
      assert p + q == q;
    } else {
      assert (p + q)[0] == p[0] && (p + q)[1..] == p[1..] + q;
      MinWidthAppend(p[1..], q);
    }
  }

  lemma {:induction false} BodyWidth()
    ensures MinWidth(Body) == 14 && MinWidth(Parenthesised) == 15
  {
    var b := Body;
    assert MinWidth(b[5..]) == 0;
    assert MinWidth(b[4..]) == 5;
    assert MinWidth(b[3..]) == 6;
    assert MinWidth(b[2..]) == 12;
    assert MinWidth(b[1..]) == 13;
    assert MinWidth(b) == 14;
    MinWidthAppend([Lit("(")], Body);
  }

  lemma {:induction false} PatternWidth(trailing: bool)
    ensures MinWidth(Pattern(trailing)) == 15
  {
    BodyWidth();
    MinWidthAppend(Spaces, Parenthesised);
    MinWidthAppend(Spaces + Parenthesised, if trailing then Spaces else []);
  }

  /** The end of the match of `Pattern(trailing)` that starts at 0. */
  function MatchAt(s: string, trailing: bool, ignoreCase: bool): (m: Option<nat>)
    ensures m.Some? ==> 15 <= m.value <= |s|
  {
    var m := MatchFrom(s, 0, Pattern(trailing), ignoreCase);
    if m.Some? then
      MatchFromWidth(s, 0, Pattern(trailing), ignoreCase);
      PatternWidth(trailing);
      m
    else m
  }

  /** `re.sub(pattern, '', s)`: every leftmost, non-overlapping match removed. */
  function RemoveAll(s: string, trailing: bool, ignoreCase: bool): string
    decreases |s|
  {
    if s == [] then []
    else
      match MatchAt(s, trailing, ignoreCase)
      case Some(e) => RemoveAll(s[e..], trailing, ignoreCase)
      case None => [s[0]] + RemoveAll(s[1..], trailing, ignoreCase)
  }

  /** Where a match starts and ends. */
  datatype Span = Span(start: nat, end: nat)

  /**
   * `re.search(toks, s)` from `from` on, case-sensitive: the start and end
   * of the leftmost match.  The page extractor searches for
   * `\((\d+\s+minute\s+read)\)`, which is `Parenthesised`.
   */
  function Search(s: string, from: nat, toks: seq<Token>): (r: Option<Span>)
    requires from <= |s|
    ensures r.Some? ==> from <= r.value.start <= |s| && MatchFrom(s, r.value.start, toks, false) == Some(r.value.end)
    decreases |s| - from
  {
    match MatchFrom(s, from, toks, false)
    case Some(e) => Some(Span(from, e))
    case None => if from == |s| then None else Search(s, from + 1, toks)
  }

  /** A match of `Parenthesised` spans at least the fifteen characters of `(1 minute read)`. */
  lemma {:induction false} SearchSpan(s: string, from: nat)
    requires from <= |s| && Search(s, from, Parenthesised).Some?
    ensures Search(s, from, Parenthesised).value.start + 15 <= Search(s, from, Parenthesised).value.end
  {
    var r := Search(s, from, Parenthesised).value;
    MatchFromWidth(s, r.start, Parenthesised, false);
    BodyWidth();
  }

  // ----- a spelled-out annotation -----

  /** `w` is `word`, up to case when `ignoreCase`. */
  predicate Spelled(w: string, word: string, ignoreCase: bool) {
    |w| == |word| && forall k :: 0 <= k < |w| ==> SameLetter(w[k], word[k], ignoreCase)
  }

  /** `(digits gap1 minute gap2 read)` */
  function Parens(digits: string, gap1: string, minute: string, gap2: string, read: string): string {
    "(" + (digits + (gap1 + (minute + (gap2 + (read + ")")))))
  }

  /** What makes `Parens(...)` a match of `Parenthesised`. */
  predicate WellFormed(digits: string, gap1: string, minute: string, gap2: string, read: string, ignoreCase: bool) {
    && digits != [] && (forall k :: 0 <= k < |digits| ==> IsDigit(digits[k]))
    && gap1 != [] && AllSpace(gap1)
    && gap2 != [] && AllSpace(gap2)
    && Spelled(minute, "minute", ignoreCase) && Spelled(read, "read", ignoreCase)
  }

  // ----- runs and words on concatenations -----

  lemma {:induction false} SkipClassShift(x: string, y: string, j: nat, cls: Class)
    requires j <= |y|
    ensures SkipClass(x + y, |x| + j, cls) == |x| + SkipClass(y, j, cls)
    decreases |y| - j
  {
    if j < |y| && InClass(y[j], cls) { SkipClassShift(x, y, j + 1, cls); }
  }

  lemma {:induction false} SkipClassConcat(s: string, u: string, i: nat, cls: Class)
    requires i <= |s|
    ensures SkipClass(s + u, i, cls) == if SkipClass(s, i, cls) < |s| then SkipClass(s, i, cls) else |s| + SkipClass(u, 0, cls)
    decreases |s| - i
  {
    if i == |s| { SkipClassShift(s, u, 0, cls); }
    else if InClass(s[i], cls) { SkipClassConcat(s, u, i + 1, cls); }
  }

  /** What a run passes over is of its class. */
  lemma {:induction false} SkipClassRun(s: string, i: nat, cls: Class)
    requires i <= |s|
    ensures forall k :: i <= k < SkipClass(s, i, cls) ==> InClass(s[k], cls)
    decreases |s| - i
  {
    if i < |s| && InClass(s[i], cls) { SkipClassRun(s, i + 1, cls); }
  }

  /** A run started inside another run ends where that one ends. */
  lemma {:induction false} SkipClassFrom(s: string, i: nat, k: nat, cls: Class)
    requires i <= |s| && i <= k <= SkipClass(s, i, cls)
    ensures SkipClass(s, k, cls) == SkipClass(s, i, cls)
    decreases k - i
  {
    if i < k { SkipClassFrom(s, i + 1, k, cls); }
  }

  /** A run over `n` characters of the class that stops at a character outside it. */
  lemma {:induction false} SkipClassOver(s: string, i: nat, n: nat, cls: Class)
    requires i + n <= |s|
    requires forall k :: i <= k < i + n ==> InClass(s[k], cls)
    requires i + n == |s| || !InClass(s[i + n], cls)
    ensures SkipClass(s, i, cls) == i + n
    decreases n
  {
    if n > 0 { SkipClassOver(s, i + 1, n - 1, cls); }
  }

  lemma {:induction false} WordAtShift(x: string, y: string, j: nat, word: string, ignoreCase: bool)
    requires j <= |y|
    ensures WordAt(x + y, |x| + j, word, ignoreCase) == WordAt(y, j, word, ignoreCase)
    decreases |word|
  {
    if word != [] && j < |y| { WordAtShift(x, y, j + 1, word[1..], ignoreCase); }
  }

  lemma {:induction false} WordAtConcat(s: string, u: string, i: nat, word: string, ignoreCase: bool)
    requires i + |word| <= |s|
    ensures WordAt(s + u, i, word, ignoreCase) == WordAt(s, i, word, ignoreCase)
    decreases |word|
  {
    if word != [] { WordAtConcat(s, u, i + 1, word[1..], ignoreCase); }
  }

  lemma {:induction false} WordAtLetter(s: string, i: nat, word: string, ignoreCase: bool, k: nat)
    requires i <= |s| && WordAt(s, i, word, ignoreCase) && i <= k < i + |word|
    ensures SameLetter(s[k], word[k - i], ignoreCase)
    decreases |word|
  {
    if k > i { WordAtLetter(s, i + 1, word[1..], ignoreCase, k); }
  }

  lemma {:induction false} WordAtOf(s: string, i: nat, w: string, word: string, ignoreCase: bool)
    requires i + |w| <= |s| && s[i..i + |w|] == w && Spelled(w, word, ignoreCase)
    ensures WordAt(s, i, word, ignoreCase)
    decreases |w|
  {
    if w != [] {
      assert s[i] == w[0];
      assert s[i + 1..i + 1 + |w[1..]|] == w[1..];
      WordAtOf(s, i + 1, w[1..], word[1..], ignoreCase);
    }
  }

  /** Characters a lower-case word may spell that are neither whitespace nor `(`. */
  predicate Clean(word: string) {
    forall c :: c in word ==> !IsSpace(c) && c != '('
  }

  /** Whitespace and `(` only spell themselves. */
  lemma {:induction false} CleanLetter(c: char, w: char, ignoreCase: bool)
    requires (IsSpace(c) || c == '(') && SameLetter(c, w, ignoreCase)
    ensures IsSpace(w) || w == '('
  {
  }

  /** Tokens whose words are non-empty, ending in a word. */
  predicate WordEnd(toks: seq<Token>) {
    && toks != [] && toks[|toks| - 1].Lit?
    && forall k :: 0 <= k < |toks| && toks[k].Lit? ==> toks[k].word != []
  }

  /** `WordEnd` tokens whose words are `Clean`. */
  predicate Tame(toks: seq<Token>) {
    WordEnd(toks) && forall k :: 0 <= k < |toks| && toks[k].Lit? ==> Clean(toks[k].word)
  }

  lemma {:induction false} WordEndTail(toks: seq<Token>)
    requires WordEnd(toks) && |toks| > 1
    ensures WordEnd(toks[1..])
  {
    forall k | 0 <= k < |toks[1..]| && toks[1..][k].Lit? ensures toks[1..][k].word != [] {
      assert toks[1..][k] == toks[k + 1];
    }
  }

  lemma {:induction false} BodyTame()
    ensures Tame(Body)
  {
    assert Clean("minute");
    assert Clean("read)");
  }

  lemma {:induction false} TameTail(toks: seq<Token>)
    requires Tame(toks) && |toks| > 1
    ensures Tame(toks[1..])
  {
    WordEndTail(toks);
    forall k | 0 <= k < |toks[1..]| && toks[1..][k].Lit? ensures Clean(toks[1..][k].word) {
      assert toks[1..][k] == toks[k + 1];
    }
  }

  lemma {:induction false} WordEndWidth(toks: seq<Token>)
    requires WordEnd(toks)
    ensures MinWidth(toks) > 0
    decreases |toks|
  {
    if |toks| > 1 { WordEndTail(toks); WordEndWidth(toks[1..]); }
  }

  function Shift(n: nat, m: Option<nat>): Option<nat> {
    match m
    case None => None
    case Some(e) => Some(n + e)
  }

  /** Matching inside `y` does not depend on what stands before it. */
  lemma {:induction false} MatchFromShift(x: string, y: string, j: nat, toks: seq<Token>, ignoreCase: bool)
    requires j <= |y|
    ensures MatchFrom(x + y, |x| + j, toks, ignoreCase) == Shift(|x|, MatchFrom(y, j, toks, ignoreCase))
    decreases |toks|
  {
    if toks != [] {
      match toks[0] {
        case Many(cls, _) => SkipClassShift(x, y, j, cls);
        case Lit(word) => WordAtShift(x, y, j, word, ignoreCase);
      }
      match Step(y, j, toks[0], ignoreCase)
      case None =>
      case Some(k) => MatchFromShift(x, y, k, toks[1..], ignoreCase);
    }
  }

  lemma {:induction false} MatchFromAppend(s: string, i: nat, p: seq<Token>, q: seq<Token>, ignoreCase: bool)
    requires i <= |s|
    ensures MatchFrom(s, i, p + q, ignoreCase) ==
      match MatchFrom(s, i, p, ignoreCase)
      case None => None
      case Some(j) => MatchFrom(s, j, q, ignoreCase)
    decreases |p|
  {
    if p == [] {
      assert p + q == q;
    } else {
      assert (p + q)[0] == p[0] && (p + q)[1..] == p[1..] + q;
      match Step(s, i, p[0], ignoreCase)
      case None =>
      case Some(j) => MatchFromAppend(s, j, p[1..], q, ignoreCase);
    }
  }

  /** A match ending in a word, found in `s`, is a match of `s + u`. */
  lemma {:induction false} MatchFromConcat(s: string, u: string, i: nat, toks: seq<Token>, ignoreCase: bool)
    requires i <= |s| && MatchFrom(s, i, toks, ignoreCase).Some?
    requires WordEnd(toks)
    ensures MatchFrom(s + u, i, toks, ignoreCase) == MatchFrom(s, i, toks, ignoreCase)
    decreases |toks|
  {
    var j := Step(s, i, toks[0], ignoreCase).value;
    match toks[0] {
      case Lit(word) =>
        WordAtConcat(s, u, i, word, ignoreCase);
      case Many(cls, _) =>
        SkipClassConcat(s, u, i, cls);
        if j == |s| {
          WordEndTail(toks);
          MatchFromWidth(s, j, toks[1..], ignoreCase);
          WordEndWidth(toks[1..]);
          assert false;
        }
    }
    if |toks| > 1 {
      WordEndTail(toks);
      MatchFromConcat(s, u, j, toks[1..], ignoreCase);
    }
  }

  /** `a` begins, after its whitespace, with an opening parenthesis. */
  predicate OpensAfterSpace(a: string) {
    var p := SkipClass(a, 0, Space);
    p < |a| && a[p] == '('
  }

  /** In `t + a`, between the end of `t` and the parenthesis of `a`, tame tokens cannot match. */
  lemma {:induction false} Stuck(t: string, a: string, q: nat, toks: seq<Token>, ignoreCase: bool)
    requires OpensAfterSpace(a) && Tame(toks)
    requires |t| <= q <= |t| + SkipClass(a, 0, Space)
    ensures MatchFrom(t + a, q, toks, ignoreCase).None?
    decreases |toks|
  {
    var s := t + a;
    var pa := SkipClass(a, 0, Space);
    SkipClassRun(a, 0, Space);
    assert s[q] == a[q - |t|];
    assert IsSpace(s[q]) || s[q] == '(';
    match toks[0]
    case Lit(word) =>
      assert word[0] in word;
      if WordAt(s, q, word, ignoreCase) {
        WordAtLetter(s, q, word, ignoreCase, q);
        CleanLetter(s[q], word[0], ignoreCase);
        assert false;
      }
    case Many(cls, _) =>
      SkipClassShift(t, a, q - |t|, cls);
      if cls == Space {
        SkipClassFrom(a, 0, q - |t|, Space);
      }
      var j := SkipClass(s, q, cls);
      assert |t| <= j <= |t| + pa;
      TameTail(toks);
      Stuck(t, a, j, toks[1..], ignoreCase);
  }

  /** A match of tame tokens that starts in `t` cannot reach into an annotation that follows `t`. */
  lemma {:induction false} MatchFromNoCross(t: string, a: string, i: nat, toks: seq<Token>, ignoreCase: bool)
    requires OpensAfterSpace(a) && Tame(toks)
    requires i <= |t| && MatchFrom(t + a, i, toks, ignoreCase).Some?
    ensures MatchFrom(t, i, toks, ignoreCase) == MatchFrom(t + a, i, toks, ignoreCase)
    decreases |toks|
  {
    var s := t + a;
    var pa := SkipClass(a, 0, Space);
    SkipClassRun(a, 0, Space);
    var j := Step(s, i, toks[0], ignoreCase).value;
    match toks[0] {
      case Lit(word) =>
        if i + |word| > |t| {
          assert s[|t|] == a[0];
          WordAtLetter(s, i, word, ignoreCase, |t|);
          assert word[|t| - i] in word;
          CleanLetter(s[|t|], word[|t| - i], ignoreCase);
          assert false;
        }
        WordAtConcat(t, a, i, word, ignoreCase);
      case Many(cls, _) =>
        SkipClassConcat(t, a, i, cls);
        if SkipClass(t, i, cls) == |t| {
          assert s[|t|] == a[0];
          assert j == |t| + SkipClass(a, 0, cls);
          TameTail(toks);
          Stuck(t, a, j, toks[1..], ignoreCase);
          assert false;
        }
    }
    if |toks| > 1 {
      TameTail(toks);
      MatchFromNoCross(t, a, j, toks[1..], ignoreCase);
    }
  }

  // ----- the patterns on concatenations -----

  lemma {:induction false} PatternSplit(trailing: bool)
    ensures Pattern(trailing) == (Spaces + Parenthesised) + (if trailing then Spaces else [])
    ensures Pattern(trailing) == [Many(Space, false)] + (Parenthesised + (if trailing then Spaces else []))
    ensures WordEnd(Spaces + Parenthesised)
  {
    var core := Spaces + Parenthesised;
    assert core[|core| - 1] == Lit("read)");
  }

  /** The pattern after its leading `\s*`. */
  function Rest(trailing: bool): seq<Token> {
    Parenthesised + (if trailing then Spaces else [])
  }

  lemma {:induction false} MatchAtUnfold(s: string, trailing: bool, ignoreCase: bool)
    ensures MatchAt(s, trailing, ignoreCase) == MatchFrom(s, SkipClass(s, 0, Space), Rest(trailing), ignoreCase)
  {
    PatternSplit(trailing);
  }

  lemma {:induction false} MatchFromDrop(a: string, n: nat, j: nat, toks: seq<Token>, ignoreCase: bool)
    requires n + j <= |a|
    ensures MatchFrom(a, n + j, toks, ignoreCase) == Shift(n, MatchFrom(a[n..], j, toks, ignoreCase))
  {
    var x := a[..n];
    var y := a[n..];
    assert a == x + y;
    MatchFromShift(x, y, j, toks, ignoreCase);
  }

  /** A match of the pattern begins, after whitespace, with `(`. */
  lemma {:induction false} MatchAtOpens(s: string, trailing: bool, ignoreCase: bool)
    requires MatchAt(s, trailing, ignoreCase).Some?
    ensures var p := SkipClass(s, 0, Space);
      && p < |s| && s[p] == '('
      && MatchAt(s, trailing, ignoreCase) == MatchFrom(s, p, Parenthesised + (if trailing then Spaces else []), ignoreCase)
  {
    PatternSplit(trailing);
    var p := SkipClass(s, 0, Space);
    var rest := Parenthesised + (if trailing then Spaces else []);
    assert MatchFrom(s, 0, Pattern(trailing), ignoreCase) == MatchFrom(s, p, rest, ignoreCase);
    assert rest[0] == Lit("(");
    assert WordAt(s, p, "(", ignoreCase);
  }

  /** After its `(`, `Parenthesised` is `Body`. */
  lemma {:induction false} ParenStep(s: string, k: nat, ignoreCase: bool)
    requires k < |s| && s[k] == '('
    ensures MatchFrom(s, k, Parenthesised, ignoreCase) == MatchFrom(s, k + 1, Body, ignoreCase)
  {
    assert Parenthesised[0] == Lit("(") && Parenthesised[1..] == Body;
    assert s[k..k + 1] == "(";
    WordAtOf(s, k, "(", "(", ignoreCase);
  }

  /** A match of `Parenthesised` begins with `(`. */
  lemma {:induction false} ParenthesisedOpens(s: string, k: nat, ignoreCase: bool)
    requires k <= |s| && MatchFrom(s, k, Parenthesised, ignoreCase).Some?
    ensures k < |s| && s[k] == '('
  {
    assert Parenthesised[0] == Lit("(");
    assert WordAt(s, k, "(", ignoreCase);
  }

  /** A match found in `s` is a match of `s + u`; only a trailing run that reaches the end of `s` grows. */
  lemma {:induction false} MatchConcat(s: string, u: string, trailing: bool, ignoreCase: bool)
    requires MatchAt(s, trailing, ignoreCase).Some?
    ensures var m := MatchAt(s, trailing, ignoreCase).value;
      MatchAt(s + u, trailing, ignoreCase) == Some(if trailing && m == |s| then |s| + SkipClass(u, 0, Space) else m)
  {
    PatternSplit(trailing);
    var core := Spaces + Parenthesised;
    var tail := if trailing then Spaces else [];
    MatchFromAppend(s, 0, core, tail, ignoreCase);
    MatchFromAppend(s + u, 0, core, tail, ignoreCase);
    MatchFromConcat(s, u, 0, core, ignoreCase);
    var c := MatchFrom(s, 0, core, ignoreCase).value;
    if trailing {
      SkipClassConcat(s, u, c, Space);
    }
  }

  /** Leading whitespace only moves a match. */
  lemma {:induction false} MatchAfterSpace(x: string, y: string, trailing: bool, ignoreCase: bool)
    requires AllSpace(x)
    ensures MatchAt(x + y, trailing, ignoreCase) == Shift(|x|, MatchAt(y, trailing, ignoreCase))
  {
    PatternSplit(trailing);
    SkipClassOver(x, 0, |x|, Space);
    SkipClassConcat(x, y, 0, Space);
    SkipClassShift(x, y, 0, Space);
    var p := SkipClass(y, 0, Space);
    MatchFromShift(x, y, p, Pattern(trailing)[1..], ignoreCase);
  }

  /** When `t` has no match at its start but `t + a` has one, `t` is whitespace only. */
  lemma {:induction false} MatchNoCross(t: string, a: string, trailing: bool, ignoreCase: bool)
    requires OpensAfterSpace(a)
    requires MatchAt(t, trailing, ignoreCase).None? && MatchAt(t + a, trailing, ignoreCase).Some?
    ensures AllSpace(t)
  {
    var s := t + a;
    SkipClassConcat(t, a, 0, Space);
    SkipClassRun(t, 0, Space);
    var p := SkipClass(t, 0, Space);
    if p < |t| {
      var tail := if trailing then Spaces else [];
      MatchAtOpens(s, trailing, ignoreCase);
      MatchFromAppend(s, p, Parenthesised, tail, ignoreCase);
      MatchFromAppend(t, p, Parenthesised, tail, ignoreCase);
      PatternSplit(trailing);
      assert MatchAt(t, trailing, ignoreCase) == MatchFrom(t, p, Parenthesised + tail, ignoreCase);
      ParenStep(s, p, ignoreCase);
      assert s[p] == t[p];
      ParenStep(t, p, ignoreCase);
      BodyTame();
      MatchFromNoCross(t, a, p + 1, Body, ignoreCase);
      assert false;
    }
  }

  lemma {:induction false} RemoveAllSpace(w: string, trailing: bool, ignoreCase: bool)
    requires AllSpace(w)
    ensures RemoveAll(w, trailing, ignoreCase) == w
  {
    if w != [] {
      SkipClassOver(w, 0, |w|, Space);
      if MatchAt(w, trailing, ignoreCase).Some? { MatchAtOpens(w, trailing, ignoreCase); }
      RemoveAllSpace(w[1..], trailing, ignoreCase);
      assert w == [w[0]] + w[1..];
    }
  }

  /** Text without `(` holds no match. */
  lemma {:induction false} RemoveAllPlain(t: string, trailing: bool, ignoreCase: bool)
    requires '(' !in t
    ensures RemoveAll(t, trailing, ignoreCase) == t
  {
    if t != [] {
      var p := SkipClass(t, 0, Space);
      if MatchAt(t, trailing, ignoreCase).Some? {
        MatchAtOpens(t, trailing, ignoreCase);
        assert false;
      }
      assert '(' !in t[1..];
      RemoveAllPlain(t[1..], trailing, ignoreCase);
      assert t == [t[0]] + t[1..];
    }
  }

  /** `y` is `x` followed by whitespace only. */
  predicate PaddedBy(x: string, y: string) {
    x <= y && AllSpace(y[|x|..])
  }

  lemma {:induction false} PaddedCons(c: char, x: string, y: string)
    requires PaddedBy(x, y)
    ensures PaddedBy([c] + x, [c] + y)
  {
    assert ([c] + y)[|[c] + x|..] == y[|x|..];
  }

  lemma {:induction false} RemoveAllWhole(s: string, trailing: bool, ignoreCase: bool)
    requires MatchAt(s, trailing, ignoreCase) == Some(|s|)
    ensures RemoveAll(s, trailing, ignoreCase) == []
  {
    assert s[|s|..] == [];
  }

  /** A whole match stays a whole match without its leading whitespace. */
  lemma {:induction false} DropLeadingSpace(a: string, trailing: bool, ignoreCase: bool)
    requires MatchAt(a, trailing, ignoreCase) == Some(|a|)
    ensures var pa := SkipClass(a, 0, Space);
      MatchAt(a[pa..], trailing, ignoreCase) == Some(|a| - pa)
  {
    var pa := SkipClass(a, 0, Space);
    MatchAtUnfold(a, trailing, ignoreCase);
    MatchAtUnfold(a[pa..], trailing, ignoreCase);
    SkipClassStop(a, pa);
    WholeDrop(a, pa, Rest(trailing), ignoreCase);
  }

  lemma {:induction false} SkipClassStop(a: string, pa: nat)
    requires pa == SkipClass(a, 0, Space)
    ensures SkipClass(a[pa..], 0, Space) == 0
  {
    if pa < |a| { assert a[pa..][0] == a[pa]; }
  }

  lemma {:induction false} WholeDrop(a: string, n: nat, toks: seq<Token>, ignoreCase: bool)
    requires n <= |a| && MatchFrom(a, n, toks, ignoreCase) == Some(|a|)
    ensures MatchFrom(a[n..], 0, toks, ignoreCase) == Some(|a| - n)
  {
    MatchFromDrop(a, n, 0, toks, ignoreCase);
  }

  lemma {:induction false} DropConcat(t: string, a: string, n: nat)
    requires n <= |a|
    ensures (t + a)[|t| + n..] == a[n..]
  {
  }

  /** With a trailing run, a match that ends with `t` swallows the annotation after it. */
  lemma {:induction false} RemoveSwallowed(t: string, a: string, ignoreCase: bool)
    requires t != [] && MatchAt(t, true, ignoreCase) == Some(|t|)
    requires MatchAt(a, true, ignoreCase) == Some(|a|)
    ensures RemoveAll(t + a, true, ignoreCase) == [] && RemoveAll(t, true, ignoreCase) == []
  {
    var pa := SkipClass(a, 0, Space);
    SwallowMatch(t, a, ignoreCase);
    RemoveAfterPrefix(t, a, pa, true, ignoreCase);
    RemoveUnpadded(a, true, ignoreCase);
    RemoveAllWhole(t, true, ignoreCase);
  }

  lemma {:induction false} SwallowMatch(t: string, a: string, ignoreCase: bool)
    requires MatchAt(t, true, ignoreCase) == Some(|t|)
    ensures MatchAt(t + a, true, ignoreCase) == Some(|t| + SkipClass(a, 0, Space))
  {
    MatchConcat(t, a, true, ignoreCase);
  }

  lemma {:induction false} RemoveAfterPrefix(t: string, a: string, n: nat, trailing: bool, ignoreCase: bool)
    requires n <= |a| && t + a != [] && MatchAt(t + a, trailing, ignoreCase) == Some(|t| + n)
    ensures RemoveAll(t + a, trailing, ignoreCase) == RemoveAll(a[n..], trailing, ignoreCase)
  {
    RemoveAtMatch(t + a, |t| + n, trailing, ignoreCase);
    DropConcat(t, a, n);
  }

  lemma {:induction false} RemoveUnpadded(a: string, trailing: bool, ignoreCase: bool)
    requires MatchAt(a, trailing, ignoreCase) == Some(|a|)
    ensures RemoveAll(a[SkipClass(a, 0, Space)..], trailing, ignoreCase) == []
  {
    DropLeadingSpace(a, trailing, ignoreCase);
    RemoveAllWhole(a[SkipClass(a, 0, Space)..], trailing, ignoreCase);
  }

  /** `re.sub` resumes after a match at the start. */
  lemma {:induction false} RemoveAtMatch(s: string, e: nat, trailing: bool, ignoreCase: bool)
    requires s != [] && MatchAt(s, trailing, ignoreCase) == Some(e)
    ensures e <= |s| && RemoveAll(s, trailing, ignoreCase) == RemoveAll(s[e..], trailing, ignoreCase)
  {
  }

  /** A match that ends inside `t` is removed from `t + a` as from `t`. */
  lemma {:induction false} RemoveInside(t: string, a: string, trailing: bool, ignoreCase: bool, m: nat)
    requires t != [] && MatchAt(t, trailing, ignoreCase) == Some(m) && !(trailing && m == |t|)
    ensures RemoveAll(t + a, trailing, ignoreCase) == RemoveAll(t[m..] + a, trailing, ignoreCase)
    ensures RemoveAll(t, trailing, ignoreCase) == RemoveAll(t[m..], trailing, ignoreCase)
  {
    MatchConcat(t, a, trailing, ignoreCase);
    assert (t + a)[m..] == t[m..] + a;
  }

  /** A match of `t + a` that starts in unmatched `t` covers all of `t + a`. */
  lemma {:induction false} RemoveAcross(t: string, a: string, trailing: bool, ignoreCase: bool)
    requires t != [] && MatchAt(a, trailing, ignoreCase) == Some(|a|)
    requires MatchAt(t, trailing, ignoreCase).None? && MatchAt(t + a, trailing, ignoreCase).Some?
    ensures RemoveAll(t + a, trailing, ignoreCase) == [] && RemoveAll(t, trailing, ignoreCase) == t && AllSpace(t)
  {
    MatchAtOpens(a, trailing, ignoreCase);
    MatchNoCross(t, a, trailing, ignoreCase);
    MatchAfterSpace(t, a, trailing, ignoreCase);
    RemoveAllWhole(t + a, trailing, ignoreCase);
    RemoveAllSpace(t, trailing, ignoreCase);
  }

  /** Without a match at the start of either, the first character is kept in both. */
  lemma {:induction false} RemoveKeepsFirst(t: string, a: string, trailing: bool, ignoreCase: bool)
    requires t != [] && MatchAt(t, trailing, ignoreCase).None? && MatchAt(t + a, trailing, ignoreCase).None?
    ensures RemoveAll(t + a, trailing, ignoreCase) == [t[0]] + RemoveAll(t[1..] + a, trailing, ignoreCase)
    ensures RemoveAll(t, trailing, ignoreCase) == [t[0]] + RemoveAll(t[1..], trailing, ignoreCase)
  {
    assert (t + a)[1..] == t[1..] + a;
  }

  /** Removing the matches of `t + a`, for a whole match `a`, leaves those of `t` up to trailing whitespace. */
  lemma {:induction false} RemoveBeforeAnnotation(t: string, a: string, trailing: bool, ignoreCase: bool)
    requires MatchAt(a, trailing, ignoreCase) == Some(|a|)
    ensures PaddedBy(RemoveAll(t + a, trailing, ignoreCase), RemoveAll(t, trailing, ignoreCase))
    decreases |t|
  {
    if t == [] {
      assert t + a == a;
      RemoveAllWhole(a, trailing, ignoreCase);
    } else {
      match MatchAt(t, trailing, ignoreCase)
      case Some(m) =>
        if trailing && m == |t| {
          RemoveSwallowed(t, a, ignoreCase);
        } else {
          RemoveInside(t, a, trailing, ignoreCase, m);
          RemoveBeforeAnnotation(t[m..], a, trailing, ignoreCase);
        }
      case None =>
        if MatchAt(t + a, trailing, ignoreCase).Some? {
          RemoveAcross(t, a, trailing, ignoreCase);
        } else {
          RemoveKeepsFirst(t, a, trailing, ignoreCase);
          RemoveBeforeAnnotation(t[1..], a, trailing, ignoreCase);
          PaddedCons(t[0], RemoveAll(t[1..] + a, trailing, ignoreCase), RemoveAll(t[1..], trailing, ignoreCase));
        }
    }
  }

  // ----- a spelled-out annotation matches -----

  /** A run over all of `w`, stopped by what follows, then the rest of the tokens. */
  lemma {:induction false} RunThen(w: string, t: string, cls: Class, atLeastOne: bool, toks: seq<Token>, ignoreCase: bool)
    requires forall k :: 0 <= k < |w| ==> InClass(w[k], cls)
    requires atLeastOne ==> w != []
    requires t == [] || !InClass(t[0], cls)
    ensures MatchFrom(w + t, 0, [Many(cls, atLeastOne)] + toks, ignoreCase) == Shift(|w|, MatchFrom(t, 0, toks, ignoreCase))
  {
    var s := w + t;
    assert SkipClass(s, 0, cls) == |w| by {
      forall k | 0 <= k < |w| ensures InClass(s[k], cls) { assert s[k] == w[k]; }
      if t != [] { assert s[|w|] == t[0]; }
      SkipClassOver(s, 0, |w|, cls);
    }
    assert ([Many(cls, atLeastOne)] + toks)[1..] == toks;
    MatchFromShift(w, t, 0, toks, ignoreCase);
  }

  /** A spelled word, then the rest of the tokens. */
  lemma {:induction false} WordThen(w: string, word: string, t: string, toks: seq<Token>, ignoreCase: bool)
    requires Spelled(w, word, ignoreCase)
    ensures MatchFrom(w + t, 0, [Lit(word)] + toks, ignoreCase) == Shift(|w|, MatchFrom(t, 0, toks, ignoreCase))
  {
    assert WordAt(w + t, 0, word, ignoreCase) by {
      assert (w + t)[0..|w|] == w;
      WordAtOf(w + t, 0, w, word, ignoreCase);
    }
    assert ([Lit(word)] + toks)[1..] == toks;
    MatchFromShift(w, t, 0, toks, ignoreCase);
  }

  lemma {:induction false} SpelledClose(read: string, ignoreCase: bool)
    requires Spelled(read, "read", ignoreCase)
    ensures Spelled(read + ")", "read)", ignoreCase)
  {
    forall k | 0 <= k < 5 ensures SameLetter((read + ")")[k], "read)"[k], ignoreCase) {
      if k < 4 { assert (read + ")")[k] == read[k] && "read)"[k] == "read"[k]; }
    }
  }

  lemma {:induction false} Assoc(a: string, b: string, c: string)
    ensures (a + b) + c == a + (b + c)
  {
  }

  /** `Parens(...) + rest`, grouped to the right. */
  lemma {:induction false} ParensRegroup(digits: string, gap1: string, minute: string, gap2: string, read: string, rest: string)
    ensures Parens(digits, gap1, minute, gap2, read) + rest
      == "(" + (digits + (gap1 + (minute + (gap2 + ((read + ")") + rest)))))
  {
    Assoc(gap2, read + ")", rest);
    Assoc(minute, gap2 + (read + ")"), rest);
    Assoc(gap1, minute + (gap2 + (read + ")")), rest);
    Assoc(digits, gap1 + (minute + (gap2 + (read + ")"))), rest);
    Assoc("(", digits + (gap1 + (minute + (gap2 + (read + ")")))), rest);
  }

  lemma {:induction false} BodyTokens()
    ensures Body == [Many(Digit, true)] + ([Many(Space, true)] + ([Lit("minute")] + ([Many(Space, true)] + ([Lit("read)")] + []))))
    ensures Parenthesised == [Lit("(")] + Body
  {
  }

  /** A run of spaces, then a word: the end of the body. */
  lemma {:induction false} BodyTail(gap2: string, w2: string, rest: string, word2: string, toks: seq<Token>, ignoreCase: bool)
    requires gap2 != [] && AllSpace(gap2) && Spelled(w2, word2, ignoreCase) && w2 != [] && !IsSpace(w2[0])
    requires toks == [Many(Space, true)] + ([Lit(word2)] + [])
    ensures MatchFrom(gap2 + (w2 + rest), 0, toks, ignoreCase) == Some(|gap2| + |w2|)
  {
    var r4 := w2 + rest;
    var t4 := [Lit(word2)] + [];
    assert MatchFrom(r4, 0, t4, ignoreCase) == Some(|w2|) by {
      WordThen(w2, word2, rest, [], ignoreCase);
    }
    assert r4[0] == w2[0];
    RunThen(gap2, r4, Space, true, t4, ignoreCase);
  }

  /** A word, then the end of the body. */
  lemma {:induction false} BodyWord(w1: string, gap2: string, w2: string, rest: string, word1: string, word2: string,
                 toks: seq<Token>, ignoreCase: bool)
    requires gap2 != [] && AllSpace(gap2) && Spelled(w1, word1, ignoreCase)
    requires Spelled(w2, word2, ignoreCase) && w2 != [] && !IsSpace(w2[0])
    requires toks == [Lit(word1)] + ([Many(Space, true)] + ([Lit(word2)] + []))
    ensures MatchFrom(w1 + (gap2 + (w2 + rest)), 0, toks, ignoreCase) == Some(|w1| + |gap2| + |w2|)
  {
    var t3 := [Many(Space, true)] + ([Lit(word2)] + []);
    BodyTail(gap2, w2, rest, word2, t3, ignoreCase);
    WordThen(w1, word1, gap2 + (w2 + rest), t3, ignoreCase);
  }

  /** A run of spaces, a word, then the end of the body. */
  lemma {:induction false} BodyGap(gap1: string, w1: string, gap2: string, w2: string, rest: string, word1: string, word2: string,
                toks: seq<Token>, ignoreCase: bool)
    requires gap1 != [] && AllSpace(gap1) && gap2 != [] && AllSpace(gap2)
    requires Spelled(w1, word1, ignoreCase) && w1 != [] && !IsSpace(w1[0])
    requires Spelled(w2, word2, ignoreCase) && w2 != [] && !IsSpace(w2[0])
    requires toks == [Many(Space, true)] + ([Lit(word1)] + ([Many(Space, true)] + ([Lit(word2)] + [])))
    ensures MatchFrom(gap1 + (w1 + (gap2 + (w2 + rest))), 0, toks, ignoreCase) == Some(|gap1| + |w1| + |gap2| + |w2|)
  {
    var r2 := w1 + (gap2 + (w2 + rest));
    var t2 := [Lit(word1)] + ([Many(Space, true)] + ([Lit(word2)] + []));
    BodyWord(w1, gap2, w2, rest, word1, word2, t2, ignoreCase);
    assert r2[0] == w1[0];
    RunThen(gap1, r2, Space, true, t2, ignoreCase);
  }

  /** Two runs of digits and spaces, a word, then the end of the body, laid end to end, match in one piece. */
  lemma {:induction false} BodyGeneric(digits: string, gap1: string, w1: string, gap2: string, w2: string, rest: string,
                    word1: string, word2: string, toks: seq<Token>, ignoreCase: bool)
    requires digits != [] && forall k :: 0 <= k < |digits| ==> IsDigit(digits[k])
    requires gap1 != [] && AllSpace(gap1) && gap2 != [] && AllSpace(gap2)
    requires Spelled(w1, word1, ignoreCase) && Spelled(w2, word2, ignoreCase)
    requires w1 != [] && !IsSpace(w1[0]) && w2 != [] && !IsSpace(w2[0])
    requires toks == [Many(Digit, true)] + ([Many(Space, true)] + ([Lit(word1)] + ([Many(Space, true)] + ([Lit(word2)] + []))))
    ensures MatchFrom(digits + (gap1 + (w1 + (gap2 + (w2 + rest)))), 0, toks, ignoreCase)
      == Some(|digits| + |gap1| + |w1| + |gap2| + |w2|)
  {
    var r1 := gap1 + (w1 + (gap2 + (w2 + rest)));
    var t1 := [Many(Space, true)] + ([Lit(word1)] + ([Many(Space, true)] + ([Lit(word2)] + [])));
    BodyGap(gap1, w1, gap2, w2, rest, word1, word2, t1, ignoreCase);
    assert r1[0] == gap1[0] && IsSpace(gap1[0]);
    RunThen(digits, r1, Digit, true, t1, ignoreCase);
  }

  /** The body of a well-formed annotation, whatever follows it, is matched by `Body`. */
  lemma {:induction false} BodyOfTokens(digits: string, gap1: string, minute: string, gap2: string, read: string, rest: string,
                     toks: seq<Token>, ignoreCase: bool)
    requires WellFormed(digits, gap1, minute, gap2, read, ignoreCase)
    requires toks == [Many(Digit, true)] + ([Many(Space, true)] + ([Lit("minute")] + ([Many(Space, true)] + ([Lit("read)")] + []))))
    ensures MatchFrom(digits + (gap1 + (minute + (gap2 + ((read + ")") + rest)))), 0, toks, ignoreCase)
      == Some(|digits| + |gap1| + 6 + |gap2| + 5)
  {
    var w2 := read + ")";
    assert Spelled(w2, "read)", ignoreCase) && |w2| == 5 && !IsSpace(w2[0]) by {
      SpelledClose(read, ignoreCase);
      assert SameLetter(read[0], "read"[0], ignoreCase);
    }
    assert |minute| == 6 && !IsSpace(minute[0]) by {
      assert SameLetter(minute[0], "minute"[0], ignoreCase);
    }
    BodyGeneric(digits, gap1, minute, gap2, w2, rest, "minute", "read)", toks, ignoreCase);
  }

  lemma {:induction false} ParensShape(digits: string, gap1: string, minute: string, gap2: string, read: string, rest: string, p: string, r0: string)
    requires |minute| == 6 && |read| == 4
    requires p == Parens(digits, gap1, minute, gap2, read)
    requires r0 == digits + (gap1 + (minute + (gap2 + ((read + ")") + rest))))
    ensures |p| == 1 + (|digits| + |gap1| + 6 + |gap2| + 5) && p[0] == '(' && p + rest == "(" + r0
  {
    ParensRegroup(digits, gap1, minute, gap2, read, rest);
  }

  /** `Parens(...)` is a match of `Parenthesised`, whatever follows it. */
  lemma {:induction false} ParensMatch(digits: string, gap1: string, minute: string, gap2: string, read: string, rest: string, ignoreCase: bool)
    requires WellFormed(digits, gap1, minute, gap2, read, ignoreCase)
    ensures var p := Parens(digits, gap1, minute, gap2, read);
      p[0] == '(' && MatchFrom(p + rest, 0, Parenthesised, ignoreCase) == Some(|p|)
  {
    BodyTokens();
    ParensMatchTokens(digits, gap1, minute, gap2, read, rest, Body, Parenthesised, ignoreCase);
  }

  lemma {:induction false} ParensMatchTokens(digits: string, gap1: string, minute: string, gap2: string, read: string, rest: string,
                          body: seq<Token>, paren: seq<Token>, ignoreCase: bool)
    requires WellFormed(digits, gap1, minute, gap2, read, ignoreCase)
    requires body == [Many(Digit, true)] + ([Many(Space, true)] + ([Lit("minute")] + ([Many(Space, true)] + ([Lit("read)")] + []))))
    requires paren == [Lit("(")] + body
    ensures var p := Parens(digits, gap1, minute, gap2, read);
      p[0] == '(' && MatchFrom(p + rest, 0, paren, ignoreCase) == Some(|p|)
  {
    var p := Parens(digits, gap1, minute, gap2, read);
    var r0 := digits + (gap1 + (minute + (gap2 + ((read + ")") + rest))));
    BodyOfTokens(digits, gap1, minute, gap2, read, rest, body, ignoreCase);
    ParensShape(digits, gap1, minute, gap2, read, rest, p, r0);
    WordThen("(", "(", r0, body, ignoreCase);
  }

  lemma {:induction false} ParensAlone(digits: string, gap1: string, minute: string, gap2: string, read: string, ignoreCase: bool)
    requires WellFormed(digits, gap1, minute, gap2, read, ignoreCase)
    ensures var p := Parens(digits, gap1, minute, gap2, read);
      MatchFrom(p, 0, Parenthesised, ignoreCase) == Some(|p|)
  {
    var p := Parens(digits, gap1, minute, gap2, read);
    ParensMatch(digits, gap1, minute, gap2, read, [], ignoreCase);
    assert p + [] == p;
  }

  /** Whitespace, then a match of `Parenthesised`, then whitespace, is one whole match of `Pattern`. */
  lemma {:induction false} PatternOver(lead: string, p: string, trail: string, trailing: bool, ignoreCase: bool)
    requires AllSpace(lead) && AllSpace(trail) && (!trailing ==> trail == [])
    requires p != [] && p[0] == '(' && MatchFrom(p + trail, 0, Parenthesised, ignoreCase) == Some(|p|)
    ensures var s := lead + p + trail; MatchAt(s, trailing, ignoreCase) == Some(|s|)
  {
    var y := p + trail;
    var s := lead + p + trail;
    assert s == lead + y by { Assoc(lead, p, trail); }
    assert MatchAt(y, trailing, ignoreCase) == MatchFrom(y, 0, Rest(trailing), ignoreCase) by {
      MatchAtUnfold(y, trailing, ignoreCase);
      assert y[0] == '(';
    }
    assert MatchFrom(y, 0, Rest(trailing), ignoreCase) == Some(|y|) by {
      MatchFromAppend(y, 0, Parenthesised, if trailing then Spaces else [], ignoreCase);
      TrailRun(p, trail, trailing, ignoreCase);
    }
    WholeAfterSpace(lead, y, trailing, ignoreCase);
  }

  lemma {:induction false} WholeAfterSpace(x: string, y: string, trailing: bool, ignoreCase: bool)
    requires AllSpace(x) && MatchAt(y, trailing, ignoreCase) == Some(|y|)
    ensures MatchAt(x + y, trailing, ignoreCase) == Some(|x + y|)
  {
    MatchAfterSpace(x, y, trailing, ignoreCase);
  }

  /** The optional trailing `\s*` takes all of the whitespace `trail`. */
  lemma {:induction false} TrailRun(p: string, trail: string, trailing: bool, ignoreCase: bool)
    requires AllSpace(trail) && (!trailing ==> trail == [])
    ensures MatchFrom(p + trail, |p|, if trailing then Spaces else [], ignoreCase) == Some(|p + trail|)
  {
    if trailing {
      SkipClassShift(p, trail, 0, Space);
      SkipClassOver(trail, 0, |trail|, Space);
    } else {
      assert p + trail == p;
    }
  }

  /** `lead(...)trail` is one whole match of `Pattern(trailing)`. */
  lemma {:induction false} AnnotationMatches(lead: string, digits: string, gap1: string, minute: string, gap2: string, read: string, trail: string,
                          trailing: bool, ignoreCase: bool)
    requires WellFormed(digits, gap1, minute, gap2, read, ignoreCase)
    requires AllSpace(lead) && AllSpace(trail) && (!trailing ==> trail == [])
    ensures var a := lead + Parens(digits, gap1, minute, gap2, read) + trail;
      MatchAt(a, trailing, ignoreCase) == Some(|a|)
  {
    ParensMatch(digits, gap1, minute, gap2, read, trail, ignoreCase);
    PatternOver(lead, Parens(digits, gap1, minute, gap2, read), trail, trailing, ignoreCase);
  }

  /** The search finds the leftmost match: nothing matches before it, and nothing at all when it finds none. */
  lemma {:induction false} SearchLeftmost(s: string, from: nat, toks: seq<Token>)
    requires from <= |s|
    ensures var r := Search(s, from, toks);
      && (r.Some? ==> forall k :: from <= k < r.value.start ==> MatchFrom(s, k, toks, false).None?)
      && (r.None? ==> forall k :: from <= k <= |s| ==> MatchFrom(s, k, toks, false).None?)
    decreases |s| - from
  {
    if MatchFrom(s, from, toks, false).None? && from < |s| {
      SearchLeftmost(s, from + 1, toks);
    }
  }

  /** The search passes over the indices where nothing matches and stops at the first match. */
  lemma {:induction false} SearchSkips(s: string, from: nat, m: nat, toks: seq<Token>)
    requires from <= m <= |s|
    requires forall k :: from <= k < m ==> MatchFrom(s, k, toks, false).None?
    requires MatchFrom(s, m, toks, false).Some?
    ensures Search(s, from, toks) == Some(Span(m, MatchFrom(s, m, toks, false).value))
    decreases m - from
  {
    if from < m {
      SearchSkips(s, from + 1, m, toks);
    }
  }

  /** A match of tokens that open with a word starts with that word's first letter. */
  lemma {:induction false} FirstLetter(s: string, k: nat, toks: seq<Token>, ignoreCase: bool)
    requires k <= |s| && toks != [] && toks[0].Lit? && toks[0].word != []
    requires MatchFrom(s, k, toks, ignoreCase).Some?
    ensures k < |s| && SameLetter(s[k], toks[0].word[0], ignoreCase)
  {
    WordAtLetter(s, k, toks[0].word, ignoreCase, k);
  }

  /** A whole match `p` after `x` is a match in `x + p` at `|x|`. */
  lemma {:induction false} MatchAfter(x: string, p: string, toks: seq<Token>)
    requires MatchFrom(p, 0, toks, false) == Some(|p|)
    ensures MatchFrom(x + p, |x|, toks, false) == Some(|x| + |p|)
  {
    MatchFromShift(x, p, 0, toks, false);
  }

  /** With no `c` in `x`, tokens opening with `c` match nowhere in `x + p` before `p`. */
  lemma {:induction false} NoMatchBefore(x: string, p: string, c: char, toks: seq<Token>)
    requires toks != [] && toks[0] == Lit([c]) && c !in x
    ensures forall k :: 0 <= k < |x| ==> MatchFrom(x + p, k, toks, false).None?
  {
    var s := x + p;
    forall k | 0 <= k < |x| ensures MatchFrom(s, k, toks, false).None? {
      assert s[k] == x[k] && x[k] in x;
      if MatchFrom(s, k, toks, false).Some? {
        FirstLetter(s, k, toks, false);
        assert false;
      }
    }
  }

  /** With no `c` in `x`, the search for tokens opening with `c` finds the match `p` after `x`. */
  lemma {:induction false} SearchAfter(x: string, p: string, c: char, toks: seq<Token>)
    requires toks != [] && toks[0] == Lit([c])
    requires c !in x && MatchFrom(p, 0, toks, false) == Some(|p|)
    ensures Search(x + p, 0, toks) == Some(Span(|x|, |x| + |p|))
  {
    MatchAfter(x, p, toks);
    NoMatchBefore(x, p, c, toks);
    SearchSkips(x + p, 0, |x|, toks);
  }

  /** In `x + p`, with `x` free of `(` and `p` a match, the search finds `p`. */
  lemma {:induction false} SearchFinds(x: string, p: string)
    requires '(' !in x
    requires MatchFrom(p, 0, Parenthesised, false) == Some(|p|)
    ensures Search(x + p, 0, Parenthesised) == Some(Span(|x|, |x| + |p|))
  {
    BodyTokens();
    SearchAfter(x, p, '(', Parenthesised);
  }
}
