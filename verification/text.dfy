/** String operations the JavaScript code relies on, restricted to ASCII:
    `trim`, `toLowerCase`, `includes`, `indexOf`, `lastIndexOf`, `split("\n\n")`,
    `replace` of the first occurrence, and `slice(0, n)`. */
module Text {
  import opened Wrappers

  /** The paragraph separator the chunkers split on. */
  const Sep: string := "\n\n"

  // ---------------------------------------------------------------- whitespace

  /** ASCII whitespace as `String.prototype.trim` removes it. */
  predicate IsSpace(c: char) {
    c == ' ' || c == '\t' || c == '\n' || c == '\r' || c == 11 as char || c == 12 as char
  }

  predicate AllSpace(s: string) {
    forall k :: 0 <= k < |s| ==> IsSpace(s[k])
  }

  function TrimStart(s: string): (r: string)
    ensures |r| <= |s| && r == s[|s| - |r|..]
    ensures forall k :: 0 <= k < |s| - |r| ==> IsSpace(s[k])
    ensures r == [] || !IsSpace(r[0])
    decreases |s|
  {
    if |s| > 0 && IsSpace(s[0]) then TrimStart(s[1..]) else s
  }

  function TrimEnd(s: string): (r: string)
    ensures |r| <= |s| && r == s[..|r|]
    ensures forall k :: |r| <= k < |s| ==> IsSpace(s[k])
    ensures r == [] || !IsSpace(r[|r| - 1])
    decreases |s|
  {
    if |s| > 0 && IsSpace(s[|s| - 1]) then TrimEnd(s[..|s| - 1]) else s
  }

  /** `s.trim()`: the piece of `s` left after removing the whitespace at both
      ends, with no whitespace at either of its own ends; empty exactly when `s`
      is all whitespace. */
  function Trim(s: string): (r: string)
    ensures OccursAt(s, r, |s| - |TrimStart(s)|)
    ensures forall k :: 0 <= k < |s| - |TrimStart(s)| ==> IsSpace(s[k])
    ensures forall k :: |s| - |TrimStart(s)| + |r| <= k < |s| ==> IsSpace(s[k])
    ensures r == [] || (!IsSpace(r[0]) && !IsSpace(r[|r| - 1]))
    ensures r == [] <==> AllSpace(s)
  {
    TrimShape(s);
    TrimEnd(TrimStart(s))
  }

  lemma TrimShape(s: string)
    ensures var t := TrimStart(s); var r := TrimEnd(t);
      OccursAt(s, r, |s| - |t|) && (r == [] <==> AllSpace(s))
      && forall k :: |s| - |t| + |r| <= k < |s| ==> IsSpace(s[k])
  {
    var t := TrimStart(s);
    var r := TrimEnd(t);
    PrefixOfSuffix(s, t, r);
    SpacesAfter(s, t, |r|);
    if t == [] {
      assert AllSpace(s);
    } else {
      TrimEndKeepsFirst(t);
      assert r[0] == s[|s| - |t|];
      assert !IsSpace(s[|s| - |t|]);
    }
  }

  /** Whitespace at the back of a suffix of `s` is whitespace at the back of `s`. */
  lemma SpacesAfter(s: string, t: string, n: nat)
    requires |t| <= |s| && t == s[|s| - |t|..] && n <= |t|
    requires forall k :: n <= k < |t| ==> IsSpace(t[k])
    ensures forall k :: |s| - |t| + n <= k < |s| ==> IsSpace(s[k])
  {
    forall k | |s| - |t| + n <= k < |s|
      ensures IsSpace(s[k])
    {
      assert s[k] == t[k - (|s| - |t|)];
    }
  }

  /** A prefix of a suffix of `s` occurs in `s`. */
  lemma PrefixOfSuffix(s: string, t: string, r: string)
    requires |t| <= |s| && t == s[|s| - |t|..]
    requires |r| <= |t| && r == t[..|r|]
    ensures OccursAt(s, r, |s| - |t|)
  {
    assert s[|s| - |t|..][..|r|] == s[|s| - |t|..|s| - |t| + |r|];
  }

  /** Trimming the end of a string that starts with a non-space keeps that first character. */
  lemma TrimEndKeepsFirst(t: string)
    requires t != [] && !IsSpace(t[0])
    ensures TrimEnd(t) != [] && TrimEnd(t)[0] == t[0]
  {
  }

  /** Trimming a string that already has no whitespace at its ends changes nothing. */
  lemma TrimNoop(s: string)
    requires |s| > 0 && !IsSpace(s[0]) && !IsSpace(s[|s| - 1])
    ensures Trim(s) == s
  {
  }

  /** Trimming twice is trimming once. */
  lemma TrimIdempotent(s: string)
    ensures Trim(Trim(s)) == Trim(s)
  {
    if Trim(s) != [] {
      TrimNoop(Trim(s));
    }
  }

  // --------------------------------------------------------------- lower case

  function Lower(c: char): char {
    if 'A' <= c <= 'Z' then (c as int + 32) as char else c
  }

  /** `s.toLowerCase()` on ASCII letters. */
  function LowerStr(s: string): (r: string)
    ensures |r| == |s|
    ensures forall k :: 0 <= k < |s| ==> r[k] == Lower(s[k])
  {
    seq(|s|, k requires 0 <= k < |s| => Lower(s[k]))
  }

  /** Lower-casing twice is lower-casing once. */
  lemma LowerIdempotent(s: string)
    ensures LowerStr(LowerStr(s)) == LowerStr(s)
  {
  }

  // -------------------------------------------------------- substring search

  /** `needle` sits in `hay` at position `i`. */
  predicate OccursAt(hay: string, needle: string, i: int) {
    0 <= i && i + |needle| <= |hay| && hay[i..i + |needle|] == needle
  }

  /** The first position at or after `from` where `needle` occurs. */
  function IndexOfFrom(hay: string, needle: string, from: nat): (r: Option<nat>)
    ensures r.Some? ==> from <= r.value && OccursAt(hay, needle, r.value)
    ensures r.Some? ==> forall j :: from <= j < r.value ==> !OccursAt(hay, needle, j)
    ensures r.None? ==> forall j :: from <= j ==> !OccursAt(hay, needle, j)
    decreases |hay| - from
  {
    if from + |needle| > |hay| then None
    else if hay[from..from + |needle|] == needle then Some(from)
    else IndexOfFrom(hay, needle, from + 1)
  }

  /** `hay.indexOf(needle)`, with `None` for -1. */
  function IndexOf(hay: string, needle: string): Option<nat> {
    IndexOfFrom(hay, needle, 0)
  }

  /** `hay.includes(needle)`. */
  function Includes(hay: string, needle: string): (b: bool)
    ensures b <==> exists i :: OccursAt(hay, needle, i)
  {
    IndexOf(hay, needle).Some?
  }

  /** Every character of a needle that is found occurs in the haystack. */
  lemma IncludedCharsOccur(hay: string, needle: string, k: int)
    requires 0 <= k < |needle|
    ensures Includes(hay, needle) ==> needle[k] in hay
  {
    if Includes(hay, needle) {
      var i :| OccursAt(hay, needle, i);
      assert hay[i..i + |needle|][k] == hay[i + k];
    }
  }

  /** The empty string is found in every string. */
  lemma IncludesEmpty(hay: string)
    ensures Includes(hay, "")
  {
    assert OccursAt(hay, "", 0);
  }

  /** An occurrence inside a slice of `s` is an occurrence in `s`, shifted. */
  lemma OccursInSlice(s: string, lo: int, hi: int, needle: string, j: int)
    requires 0 <= lo <= hi <= |s|
    requires OccursAt(s[lo..hi], needle, j)
    ensures OccursAt(s, needle, lo + j)
  {
    forall t | 0 <= t < |needle| ensures s[lo + j + t] == needle[t] {
      assert s[lo..hi][j..j + |needle|][t] == needle[t];
    }
    assert s[lo + j..lo + j + |needle|] == needle;
  }

  /** A piece of a piece of `s` is a piece of `s`. */
  lemma OccursTrans(s: string, mid: string, p: int, c: string, t: int)
    requires OccursAt(s, mid, p) && OccursAt(mid, c, t)
    ensures OccursAt(s, c, p + t)
  {
    assert s[p..p + |mid|] == mid;
    OccursInSlice(s, p, p + |mid|, c, t);
  }

  /** Whatever occurs in a piece of `s` occurs in `s`. */
  lemma IncludedInPiece(s: string, c: string, t: int, needle: string)
    requires OccursAt(s, c, t)
    ensures Includes(c, needle) ==> Includes(s, needle)
  {
    if Includes(c, needle) {
      var q :| OccursAt(c, needle, q);
      OccursTrans(s, c, t, needle, q);
    }
  }

  /** `hay.replace(pat, rep)` with a string pattern: only the first occurrence. */
  function ReplaceFirst(hay: string, pat: string, rep: string): (r: string)
    ensures !Includes(hay, pat) ==> r == hay
    ensures Includes(hay, pat) ==>
      exists i :: OccursAt(hay, pat, i) && (forall j :: 0 <= j < i ==> !OccursAt(hay, pat, j))
               && r == hay[..i] + rep + hay[i + |pat|..]
  {
    match IndexOf(hay, pat)
    case None => hay
    case Some(i) => hay[..i] + rep + hay[i + |pat|..]
  }

  /** `s.indexOf(c)` for one character. */
  function IndexOfChar(s: string, c: char): (r: Option<nat>)
    ensures r.Some? ==> r.value < |s| && s[r.value] == c && forall k :: 0 <= k < r.value ==> s[k] != c
    ensures r.None? ==> forall k :: 0 <= k < |s| ==> s[k] != c
  {
    if |s| == 0 then None
    else if s[0] == c then Some(0)
    else match IndexOfChar(s[1..], c)
      case None => None
      case Some(i) => Some(i + 1)
  }

  /** `s.lastIndexOf(c)` for one character. */
  function LastIndexOfChar(s: string, c: char): (r: Option<nat>)
    ensures r.Some? ==> r.value < |s| && s[r.value] == c && forall k :: r.value < k < |s| ==> s[k] != c
    ensures r.None? ==> forall k :: 0 <= k < |s| ==> s[k] != c
  {
    if |s| == 0 then None
    else if s[|s| - 1] == c then Some(|s| - 1)
    else LastIndexOfChar(s[..|s| - 1], c)
  }

  // ------------------------------------------------------------ "\n\n" split

  /** Joins pieces with the separator; the inverse of `Split`. */
  function Join(pieces: seq<string>): string
    requires |pieces| > 0
  {
    if |pieces| == 1 then pieces[0] else pieces[0] + Sep + Join(pieces[1..])
  }

  /** `s.split("\n\n")`: scanning from the left, every non-overlapping
      occurrence of the separator ends a piece. */
  function Split(s: string): (r: seq<string>)
    ensures |r| > 0
    ensures Join(r) == s
    ensures forall k :: 0 <= k < |r| ==> !Includes(r[k], Sep)
    decreases |s|
  {
    match IndexOf(s, Sep)
    case None => [s]
    case Some(i) =>
      SplitHead(s, i);
      var rest := Split(s[i + 2..]);
      assert ([s[..i]] + rest)[1..] == rest;
      [s[..i]] + rest
  }

  /** The text before the first separator holds no separator. */
  lemma SplitHead(s: string, i: nat)
    requires IndexOf(s, Sep) == Some(i)
    ensures s == s[..i] + Sep + s[i + 2..]
    ensures !Includes(s[..i], Sep)
  {
    forall j | 0 <= j && j + 2 <= i ensures !OccursAt(s[..i], Sep, j) {
      if OccursAt(s[..i], Sep, j) {
        OccursInSlice(s, 0, i, Sep, j);
      }
    }
  }

  /** Every piece of a split is a piece of the original text. */
  lemma SplitPieceOccurs(s: string, k: nat)
    requires k < |Split(s)|
    ensures exists p :: OccursAt(s, Split(s)[k], p)
  {
    var p := JoinPieceAt(Split(s), k);
  }

  /** The position in `Join(ps)` where its `k`-th piece starts. */
  lemma {:induction false} JoinPieceAt(ps: seq<string>, k: nat) returns (p: int)
    requires k < |ps|
    ensures OccursAt(Join(ps), ps[k], p)
    decreases |ps|
  {
    if |ps| == 1 {
      assert Join(ps)[0..|ps[0]|] == ps[0];
      p := 0;
    } else {
      var rest := Join(ps[1..]);
      var front := ps[0] + Sep;
      assert Join(ps) == front + rest;
      if k == 0 {
        OccursInFront(ps[0], Sep, ps[0], 0);
        OccursInFront(front, rest, ps[0], 0);
        assert OccursAt(ps[0], ps[0], 0);
        p := 0;
      } else {
        var j := JoinPieceAt(ps[1..], k - 1);
        assert (front + rest)[|front|..|front + rest|] == rest;
        assert ps[1..][k - 1] == ps[k];
        OccursInSlice(front + rest, |front|, |front + rest|, ps[k], j);
        p := |front| + j;
      }
    }
  }

  /** A piece with no separator splits to itself. */
  lemma SplitNoSep(s: string)
    requires !Includes(s, Sep)
    ensures Split(s) == [s]
  {
  }

  /** A piece that survives a round trip through `Join` and `Split`: no blank
      line inside and no trailing newline. */
  predicate Paragraph(p: string) {
    !Includes(p, Sep) && (p == [] || p[|p| - 1] != '\n')
  }

  /** Splitting paragraphs that were joined with blank lines gives them back. */
  lemma {:induction false} SplitJoin(ps: seq<string>)
    requires |ps| > 0
    requires forall k :: 0 <= k < |ps| ==> Paragraph(ps[k])
    ensures Split(Join(ps)) == ps
    decreases |ps|
  {
    if |ps| == 1 {
      SplitNoSep(ps[0]);
    } else {
      var p := ps[0];
      assert Paragraph(p);
      assert Join(ps) == p + Sep + Join(ps[1..]);
      SplitCons(p, Join(ps[1..]));
      SplitJoin(ps[1..]);
      assert ps == [p] + ps[1..];
    }
  }

  /** Splitting `a + "\n\n" + b` yields `a` first when `a` holds no separator
      and does not end in a newline (so the separator found first is the one
      after `a`). */
  lemma SplitCons(a: string, b: string)
    requires !Includes(a, Sep)
    requires a == [] || a[|a| - 1] != '\n'
    ensures Split(a + Sep + b) == [a] + Split(b)
  {
    var s := a + Sep + b;
    assert s[|a|..|a| + 2] == Sep;
    forall j | 0 <= j < |a| ensures !OccursAt(s, Sep, j) {
      SepNotBefore(a, b, j);
    }
    assert OccursAt(s, Sep, |a|);
    assert IndexOf(s, Sep) == Some(|a|);
    assert s[..|a|] == a;
    assert s[|a| + 2..] == b;
  }

  /** An occurrence that fits inside `a` is unaffected by what follows `a`. */
  lemma OccursInFront(a: string, b: string, needle: string, j: int)
    requires 0 <= j && j + |needle| <= |a|
    ensures OccursAt(a + b, needle, j) <==> OccursAt(a, needle, j)
  {
    assert (a + b)[j..j + |needle|] == a[j..j + |needle|];
  }

  /** No separator starts inside `a` in `a + "\n\n" + b` when `a` holds none
      and does not end in a newline. */
  lemma SepNotBefore(a: string, b: string, j: int)
    requires !Includes(a, Sep)
    requires a == [] || a[|a| - 1] != '\n'
    requires 0 <= j < |a|
    ensures !OccursAt(a + Sep + b, Sep, j)
  {
    if j + 2 <= |a| {
      OccursInFront(a + Sep, b, Sep, j);
      OccursInFront(a, Sep, Sep, j);
    } else {
      var s := a + Sep + b;
      assert s[j..j + 2][0] == a[|a| - 1];
    }
  }

  /** Two separator-free strings stay separator-free when glued, unless the
      glue point joins two newlines. */
  lemma NoSepConcat(x: string, y: string)
    requires !Includes(x, Sep) && !Includes(y, Sep)
    requires !(|x| > 0 && |y| > 0 && x[|x| - 1] == '\n' && y[0] == '\n')
    ensures !Includes(x + y, Sep)
  {
    var s := x + y;
    forall j | 0 <= j && j + 2 <= |s| ensures !OccursAt(s, Sep, j) {
      if j + 2 <= |x| {
        assert s[j..j + 2] == x[j..j + 2];
        assert !OccursAt(x, Sep, j);
      } else if j >= |x| {
        assert s[j..j + 2] == y[j - |x|..j - |x| + 2];
        assert !OccursAt(y, Sep, j - |x|);
      } else {
        assert s[j..j + 2] == [x[|x| - 1], y[0]];
      }
    }
  }

  /** A string without newlines holds no separator. */
  lemma NoNewlineNoSep(s: string)
    requires forall k :: 0 <= k < |s| ==> s[k] != '\n'
    ensures !Includes(s, Sep)
  {
    forall j | 0 <= j && j + 2 <= |s| ensures !OccursAt(s, Sep, j) {
      assert s[j..j + 2][0] == s[j];
    }
  }

  // ------------------------------------------------------------------ slices

  /** The end index of `xs.slice(0, end)` in JavaScript: a negative end counts
      from the back, and the result is clamped to `[0, len]`. */
  function SliceEnd(end: int, len: nat): (r: nat)
    ensures r <= len
    ensures end >= 0 ==> r == if end < len then end else len
    ensures end < 0 ==> r == if len + end > 0 then len + end else 0
  {
    if end < 0 then (if len + end > 0 then len + end else 0)
    else if end < len then end else len
  }

  /** The first `n` elements (all of them when there are fewer). */
  function Take<T>(xs: seq<T>, n: nat): (r: seq<T>)
    ensures |r| == if n < |xs| then n else |xs|
    ensures r == xs[..|r|]
  {
    if n < |xs| then xs[..n] else xs
  }

  /** JavaScript's `a || d` on a string: the empty string counts as absent. */
  function OrDefault(a: Option<string>, d: string): (r: string)
    ensures a.Some? && a.value != "" ==> r == a.value
    ensures (a.None? || a.value == "") ==> r == d
  {
    if a.Some? && a.value != "" then a.value else d
  }

  // ----------------------------------------------------------- numerals

  predicate IsDigit(c: char) {
    '0' <= c <= '9'
  }

  /** The decimal numeral of `n`, as a template literal writes it. */
  function Decimal(n: nat): (r: string)
    ensures |r| >= 1 && forall k :: 0 <= k < |r| ==> IsDigit(r[k])
    ensures |r| > 1 ==> r[0] != '0'
    decreases n
  {
    var d := ['0' + (n % 10) as char];
    if n < 10 then d else Decimal(n / 10) + d
  }

  /** The number a string of digits denotes. */
  function DecimalValue(s: string): nat
    requires forall k :: 0 <= k < |s| ==> IsDigit(s[k])
    decreases |s|
  {
    if s == [] then 0
    else
      assert IsDigit(s[|s| - 1]);
      10 * DecimalValue(s[..|s| - 1]) + (s[|s| - 1] as int - '0' as int)
  }

  /** Reading a numeral back gives the number. */
  lemma {:induction false} DecimalRoundTrip(n: nat)
    ensures DecimalValue(Decimal(n)) == n
    decreases n
  {
    if n >= 10 {
      DecimalRoundTrip(n / 10);
      var s := Decimal(n);
      assert s[..|s| - 1] == Decimal(n / 10);
    }
  }
}
