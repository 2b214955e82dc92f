/**
 * The JavaScript string built-ins the tracker relies on: `trim`, `split` with a
 * one-character separator, `startsWith`, `includes`/`indexOf`, `replace` with a
 * string pattern, and the decimal rendering of a non-negative integer inside a
 * template literal. Strings are sequences of Unicode scalar values.
 */
module JsString {
  import opened Wrappers

  /** ECMAScript WhiteSpace and LineTerminator code points: what `trim` removes. */
  predicate IsJsSpace(c: char) {
    c == '\t' || c == '\n' || c == '\U{000B}' || c == '\U{000C}' || c == '\r' || c == ' '
    || c == '\U{00A0}' || c == '\U{1680}' || ('\U{2000}' <= c <= '\U{200A}')
    || c == '\U{2028}' || c == '\U{2029}' || c == '\U{202F}' || c == '\U{205F}'
    || c == '\U{3000}' || c == '\U{FEFF}'
  }

  /** Every character of `s` in positions `lo` to `hi - 1` is white space. */
  predicate SpaceBetween(s: string, lo: int, hi: int)
    requires 0 <= lo <= hi <= |s|
  {
    forall i :: lo <= i < hi ==> IsJsSpace(s[i])
  }

  predicate AllSpace(s: string) {
    SpaceBetween(s, 0, |s|)
  }

  /** The length of the run of white space that starts `s`. */
  function LeadingSpace(s: string): (k: nat)
    ensures k <= |s|
    ensures SpaceBetween(s, 0, k)
    ensures k < |s| ==> !IsJsSpace(s[k])
  {
    if s == [] || !IsJsSpace(s[0]) then 0 else 1 + LeadingSpace(s[1..])
  }

  /** The length of the run of white space that ends `s`. */
  function TrailingSpace(s: string): (k: nat)
    ensures k <= |s|
    ensures SpaceBetween(s, |s| - k, |s|)
    ensures k < |s| ==> !IsJsSpace(s[|s| - k - 1])
  {
    if s == [] || !IsJsSpace(s[|s| - 1]) then 0 else 1 + TrailingSpace(s[..|s| - 1])
  }

  lemma LeadingSpaceUnique(s: string, k: nat)
    requires k <= |s| && SpaceBetween(s, 0, k)
    requires k < |s| ==> !IsJsSpace(s[k])
    ensures LeadingSpace(s) == k
  {
  }

  lemma TrailingSpaceUnique(s: string, k: nat)
    requires k <= |s| && SpaceBetween(s, |s| - k, |s|)
    requires k < |s| ==> !IsJsSpace(s[|s| - k - 1])
    ensures TrailingSpace(s) == k
  {
  }

  /** `String.prototype.trim`: drop the white space at both ends. */
  function Trim(s: string): (r: string)
    ensures |r| <= |s|
    ensures r == [] || (!IsJsSpace(r[0]) && !IsJsSpace(r[|r| - 1]))
    ensures forall c :: c in r ==> c in s
  {
    var rest := s[LeadingSpace(s)..];
    rest[..|rest| - TrailingSpace(rest)]
  }

  /**
   * `trim` removes exactly the surrounding white space: whatever white space
   * surrounds a core that starts and ends with a non-space, the core is returned.
   */
  lemma TrimUnique(p: string, m: string, q: string)
    requires AllSpace(p) && AllSpace(q)
    requires m == [] || (!IsJsSpace(m[0]) && !IsJsSpace(m[|m| - 1]))
    ensures Trim(p + m + q) == m
  {
    var s := p + m + q;
    if m == [] {
      LeadingSpaceUnique(s, |s|);
    } else {
      LeadingSpaceUnique(s, |p|);
      var rest := s[|p|..];
      assert rest == m + q;
      TrailingSpaceUnique(rest, |q|);
      assert rest[..|rest| - |q|] == m;
    }
  }

  /** Trimming twice changes nothing more than trimming once. */
  lemma TrimIdempotent(s: string)
    ensures Trim(Trim(s)) == Trim(s)
  {
    var r := Trim(s);
    assert "" + r + "" == r;
    TrimUnique("", r, "");
  }

  /** The inverse of `split`: the parts glued back together with the separator. */
  function Join(parts: seq<string>, d: char): string
    requires |parts| >= 1
  {
    if |parts| == 1 then parts[0] else parts[0] + [d] + Join(parts[1..], d)
  }

  /**
   * `String.prototype.split` with a one-character separator: the maximal
   * separator-free pieces of `s`; the empty string splits into one empty piece.
   */
  function Split(s: string, d: char): (parts: seq<string>)
    ensures |parts| >= 1
    ensures forall i :: 0 <= i < |parts| ==> d !in parts[i]
    ensures Join(parts, d) == s
  {
    if s == [] then [""]
    else
      var rest := Split(s[1..], d);
      if s[0] == d then
        assert ([""] + rest)[1..] == rest;
        [""] + rest
      else
        var parts := [[s[0]] + rest[0]] + rest[1..];
        assert |rest| > 1 ==> parts[1..] == rest[1..] && Join(rest, d) == rest[0] + [d] + Join(rest[1..], d);
        assert s == [s[0]] + s[1..];
        parts
  }

  lemma JoinConcat(a: seq<string>, b: seq<string>, d: char)
    requires |a| >= 1 && |b| >= 1
    ensures Join(a + b, d) == Join(a, d) + [d] + Join(b, d)
    decreases |a|
  {
    if |a| > 1 {
      assert (a + b)[1..] == a[1..] + b;
      JoinConcat(a[1..], b, d);
    } else {
      assert (a + b)[1..] == b;
    }
  }

  /** A separator-free string is a single piece. */
  lemma SplitNoSeparator(s: string, d: char)
    requires d !in s
    ensures Split(s, d) == [s]
  {
    var parts := Split(s, d);
  }

  lemma {:induction false} SplitAfterPiece(x: string, y: string, d: char)
    requires d !in x
    ensures Split(x + [d] + y, d) == [x] + Split(y, d)
    decreases |x|
  {
    var s := x + [d] + y;
    if x == [] {
      assert s[1..] == y;
    } else {
      assert s[1..] == x[1..] + [d] + y;
      SplitAfterPiece(x[1..], y, d);
      assert [x[0]] + x[1..] == x;
    }
  }

  /** A string with exactly one separator splits into the two sides. */
  lemma SplitOnce(x: string, y: string, d: char)
    requires d !in x && d !in y
    ensures Split(x + [d] + y, d) == [x, y]
  {
    SplitAfterPiece(x, y, d);
    SplitNoSeparator(y, d);
  }

  /** A string with one separator, at position `i`, splits there. */
  lemma SplitAtOnly(s: string, i: int, d: char)
    requires 0 <= i < |s| && s[i] == d
    requires forall k :: 0 <= k < |s| && k != i ==> s[k] != d
    ensures Split(s, d) == [s[..i], s[i + 1..]]
  {
    assert s == s[..i] + [d] + s[i + 1..];
    SplitOnce(s[..i], s[i + 1..], d);
  }

  /** `split` undoes `Join` on separator-free pieces: the two are inverses. */
  lemma {:induction false} SplitJoin(parts: seq<string>, d: char)
    requires |parts| >= 1
    requires forall i :: 0 <= i < |parts| ==> d !in parts[i]
    ensures Split(Join(parts, d), d) == parts
    decreases |parts|
  {
    if |parts| == 1 {
      SplitNoSeparator(parts[0], d);
    } else {
      SplitAfterPiece(parts[0], Join(parts[1..], d), d);
      SplitJoin(parts[1..], d);
    }
  }

  /** Splitting at a separator splits the two sides independently. */
  lemma SplitConcat(a: string, b: string, d: char)
    ensures Split(a + [d] + b, d) == Split(a, d) + Split(b, d)
  {
    var pa, pb := Split(a, d), Split(b, d);
    JoinConcat(pa, pb, d);
    SplitJoin(pa + pb, d);
  }

  lemma AppendAssoc<T>(a: seq<T>, b: seq<T>, c: seq<T>)
    ensures a + b + c == a + (b + c)
  {
  }

  /**
   * `s.split(d)[1]`, when it exists, is the text between the first and the
   * second separator of `s` (or the end of `s`).
   */
  lemma SecondPiece(s: string, d: char)
    requires |Split(s, d)| >= 2
    ensures var parts := Split(s, d);
      exists post :: s == parts[0] + [d] + parts[1] + post && (post == [] || post[0] == d)
  {
    var parts := Split(s, d);
    var post := if |parts| == 2 then [] else [d] + Join(parts[2..], d);
    assert parts[1..][0] == parts[1];
    assert |parts| > 2 ==> parts[1..][1..] == parts[2..];
    assert Join(parts[1..], d) == parts[1] + post;
    assert s == parts[0] + [d] + parts[1] + post;
  }

  predicate StartsWith(s: string, prefix: string) {
    |prefix| <= |s| && s[..|prefix|] == prefix
  }

  predicate OccursAt(s: string, pat: string, i: int) {
    0 <= i && i + |pat| <= |s| && s[i..i + |pat|] == pat
  }

  lemma OccursAtShift(s: string, pat: string)
    requires |s| >= 1
    ensures forall j :: 1 <= j ==> (OccursAt(s, pat, j) <==> OccursAt(s[1..], pat, j - 1))
  {
    forall j | 1 <= j
      ensures OccursAt(s, pat, j) <==> OccursAt(s[1..], pat, j - 1)
    {
      if j + |pat| <= |s| {
        assert s[1..][j - 1..j - 1 + |pat|] == s[j..j + |pat|];
      }
    }
  }

  /** `String.prototype.indexOf`: the first position where `pat` occurs, if any. */
  function IndexOf(s: string, pat: string): (r: Option<nat>)
    ensures r.Some? ==> OccursAt(s, pat, r.value)
    ensures r.Some? ==> forall j :: 0 <= j < r.value ==> !OccursAt(s, pat, j)
    ensures r.None? ==> forall j :: !OccursAt(s, pat, j)
    decreases |s|
  {
    if |s| < |pat| then None
    else if s[..|pat|] == pat then Some(0)
    else
      OccursAtShift(s, pat);
      match IndexOf(s[1..], pat)
      case None => None
      case Some(i) => Some(i + 1)
  }

  /** `String.prototype.includes`. */
  predicate Includes(s: string, pat: string) {
    IndexOf(s, pat).Some?
  }

  /** `String.prototype.replace` with a string pattern: only the first occurrence. */
  function ReplaceFirst(s: string, pat: string, rep: string): string {
    match IndexOf(s, pat)
    case None => s
    case Some(i) => s[..i] + rep + s[i + |pat|..]
  }

  /** `Array.prototype.findIndex`: the first position whose element satisfies `p`. */
  function FindIndex<T>(xs: seq<T>, p: T -> bool): (r: Option<nat>)
    ensures r.Some? ==> r.value < |xs| && p(xs[r.value])
    ensures r.Some? ==> forall j :: 0 <= j < r.value ==> !p(xs[j])
    ensures r.None? <==> forall j :: 0 <= j < |xs| ==> !p(xs[j])
  {
    if xs == [] then None
    else if p(xs[0]) then Some(0)
    else
      assert forall j :: 1 <= j < |xs| ==> xs[j] == xs[1..][j - 1];
      match FindIndex(xs[1..], p)
      case None => None
      case Some(i) => Some(i + 1)
  }

  /** Where the first match lies in a sequence made of two stretches. */
  lemma FindIndexConcat<T>(a: seq<T>, b: seq<T>, p: T -> bool)
    ensures FindIndex(a + b, p) ==
      if FindIndex(a, p).Some? then FindIndex(a, p)
      else match FindIndex(b, p)
        case None => None
        case Some(i) => Some(|a| + i)
  {
    var r := FindIndex(a + b, p);
    assert forall j :: 0 <= j < |a| ==> (a + b)[j] == a[j];
    assert forall j :: 0 <= j < |b| ==> (a + b)[|a| + j] == b[j];
    var ra, rb := FindIndex(a, p), FindIndex(b, p);
    if ra.Some? {
      assert (a + b)[ra.value] == a[ra.value];
    } else if rb.Some? {
      assert (a + b)[|a| + rb.value] == b[rb.value];
    }
  }

  /** A match in the first stretch is the first match of the whole. */
  lemma FindIndexPrefixWins<T>(a: seq<T>, b: seq<T>, p: T -> bool)
    requires FindIndex(a, p).Some?
    ensures FindIndex(a + b, p) == FindIndex(a, p)
  {
    FindIndexConcat(a, b, p);
  }

  /** After a stretch without a match, an element that matches is the first match. */
  lemma FindIndexAfterMisses<T>(a: seq<T>, x: T, p: T -> bool)
    requires FindIndex(a, p).None? && p(x)
    ensures FindIndex(a + [x], p) == Some(|a|)
  {
    FindIndexConcat(a, [x], p);
    assert FindIndex([x], p) == Some(0);
  }

  predicate IsDigit(c: char) {
    '0' <= c <= '9'
  }

  function DigitChar(d: nat): (c: char)
    requires d < 10
  {
    (('0' as int) + d) as char
  }

  /** The value of a string of decimal digits. */
  function DigitsValue(s: string): int
    requires forall i :: 0 <= i < |s| ==> IsDigit(s[i])
  {
    if s == [] then 0 else 10 * DigitsValue(s[..|s| - 1]) + (s[|s| - 1] as int - '0' as int)
  }

  /** A non-negative integer as a template literal renders it. */
  function Decimal(n: nat): (r: string)
    ensures |r| >= 1
    ensures forall i :: 0 <= i < |r| ==> IsDigit(r[i])
  {
    if n < 10 then [DigitChar(n)] else Decimal(n / 10) + [DigitChar(n % 10)]
  }

  /** The rendering is faithful: reading the digits back gives the number. */
  lemma {:induction false} DecimalRoundTrip(n: nat)
    ensures DigitsValue(Decimal(n)) == n
  {
    if n >= 10 {
      DecimalRoundTrip(n / 10);
      var r := Decimal(n);
      assert r[..|r| - 1] == Decimal(n / 10);
    }
  }
}
