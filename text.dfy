/** The handful of Python string operations the marker processor relies on:
    `str.strip()`, `str.split(c)` and `c.join(parts)` for a one-character
    separator, `sub in s`, and `str.split(sep)` for a longer separator. */
module Text {

  datatype Option<+T> = None | Some(value: T)

  /** Whitespace as `str.strip()` with no argument removes it, restricted to
      the ASCII range (space, \t, \n, \v, \f, \r and the separators 0x1C-0x1F). */
  predicate IsSpace(c: char) {
    c == ' ' || c == '\t' || c == '\n' || c == '\r' || c == '\U{000B}' || c == '\U{000C}'
    || ('\U{001C}' <= c <= '\U{001F}')
  }

  predicate AllSpace(s: string) {
    forall k | 0 <= k < |s| :: IsSpace(s[k])
  }

  /** Number of whitespace characters at the start of `s`. */
  function LeadingSpaces(s: string): (n: nat)
    ensures n <= |s|
  {
    if s == [] || !IsSpace(s[0]) then 0 else 1 + LeadingSpaces(s[1..])
  }

  lemma {:induction false} LeadingSpacesSpec(s: string)
    ensures var n := LeadingSpaces(s);
      AllSpace(s[..n]) && (n < |s| ==> !IsSpace(s[n]))
  {
    if s != [] && IsSpace(s[0]) {
      LeadingSpacesSpec(s[1..]);
      var n := LeadingSpaces(s);
      assert s[..n] == [s[0]] + s[1..][..n - 1];
    }
  }

  /** Number of whitespace characters at the end of `s`. */
  function TrailingSpaces(s: string): (n: nat)
    ensures n <= |s|
  {
    if s == [] || !IsSpace(s[|s| - 1]) then 0 else 1 + TrailingSpaces(s[..|s| - 1])
  }

  lemma {:induction false} TrailingSpacesSpec(s: string)
    ensures var n := TrailingSpaces(s);
      AllSpace(s[|s| - n..]) && (n < |s| ==> !IsSpace(s[|s| - n - 1]))
  {
    if s != [] && IsSpace(s[|s| - 1]) {
      var init := s[..|s| - 1];
      TrailingSpacesSpec(init);
      var n := TrailingSpaces(s);
      assert s[|s| - n..] == init[|init| - (n - 1)..] + [s[|s| - 1]];
    }
  }

  /** `s.strip()`: `s` with its leading and trailing whitespace removed. */
  function Strip(s: string): string {
    var a := LeadingSpaces(s);
    if a == |s| then []
    else s[a..|s| - TrailingSpaces(s[a..])]
  }

  /** The result of `strip()` is the unique infix of `s` that is surrounded by
      whitespace only and neither starts nor ends with whitespace; it is empty
      exactly when `s` is all whitespace. */
  lemma StripSpec(s: string)
    ensures var r := Strip(s);
      (r == [] <==> AllSpace(s))
      && (r != [] ==> !IsSpace(r[0]) && !IsSpace(r[|r| - 1]))
      && exists a :: StrippedAt(s, r, a)
  {
    var a := LeadingSpaces(s);
    LeadingSpacesSpec(s);
    if a == |s| {
      assert s[..a] == s;
      assert StrippedAt(s, [], |s|);
    } else {
      StripInner(s, a);
    }
  }

  lemma StripInner(s: string, a: nat)
    requires a == LeadingSpaces(s) < |s| && AllSpace(s[..a]) && !IsSpace(s[a])
    ensures var r := Strip(s);
      r != [] && !AllSpace(s) && !IsSpace(r[0]) && !IsSpace(r[|r| - 1]) && StrippedAt(s, r, a)
  {
    var t := s[a..];
    TrailingSpacesSpec(t);
    var n := TrailingSpaces(t);
    assert t[0] == s[a];
    var b := |s| - n;
    var r := s[a..b];
    assert r == Strip(s);
    assert t[|t| - n..] == s[b..];
    assert r[0] == s[a];
    assert r[|r| - 1] == t[|t| - n - 1];
    assert s[a..a + |r|] == r;
  }

  /** `r` sits in `s` at offset `a` with only whitespace around it. */
  predicate StrippedAt(s: string, r: string, a: nat) {
    a + |r| <= |s| && s[a..a + |r|] == r && AllSpace(s[..a]) && AllSpace(s[a + |r|..])
  }

  /** Stripping never introduces a character that was not in the input. */
  lemma StripKeepsOut(s: string, c: char)
    requires c !in s
    ensures c !in Strip(s)
  {
    StripSpec(s);
    var a: nat :| StrippedAt(s, Strip(s), a);
  }

  /** Number of occurrences of `c` in `s`. */
  function Count(s: string, c: char): nat {
    if s == [] then 0 else (if s[0] == c then 1 else 0) + Count(s[1..], c)
  }

  /** `s.split(sep)` for a one-character separator: the pieces between
      separators, always at least one. */
  function Split(s: string, sep: char): seq<string> {
    if s == [] then [[]]
    else
      var rest := Split(s[1..], sep);
      if s[0] == sep then [[]] + rest
      else [[s[0]] + rest[0]] + rest[1..]
  }

  /** There is one piece more than there are separators, and no piece holds
      the separator. */
  lemma {:induction false} SplitSpec(s: string, sep: char)
    ensures var parts := Split(s, sep);
      |parts| == Count(s, sep) + 1 && forall k | 0 <= k < |parts| :: sep !in parts[k]
  {
    if s != [] {
      SplitSpec(s[1..], sep);
      var rest := Split(s[1..], sep);
      if s[0] != sep {
        assert sep !in [s[0]] + rest[0];
      }
    }
  }

  /** `sep.join(parts)`. */
  function Join(parts: seq<string>, sep: char): string {
    if parts == [] then []
    else if |parts| == 1 then parts[0]
    else parts[0] + [sep] + Join(parts[1..], sep)
  }

  /** Joining the pieces of a split gives back the original text. */
  lemma {:induction false} JoinSplit(s: string, sep: char)
    ensures Join(Split(s, sep), sep) == s
  {
    if s != [] {
      var rest := Split(s[1..], sep);
      JoinSplit(s[1..], sep);
      if s[0] == sep {
        assert ([[]] + rest)[1..] == rest;
      } else if |rest| == 1 {
      } else {
        assert ([[s[0]] + rest[0]] + rest[1..])[1..] == rest[1..];
        assert Join(rest, sep) == rest[0] + [sep] + Join(rest[1..], sep);
      }
    }
  }

  lemma {:induction false} SplitNoSep(a: string, sep: char)
    requires sep !in a
    ensures Split(a, sep) == [a]
  {
    if a != [] {
      SplitNoSep(a[1..], sep);
      assert [a[0]] + a[1..] == a;
    }
  }

  lemma {:induction false} SplitAfterPiece(a: string, sep: char, b: string)
    requires sep !in a
    ensures Split(a + [sep] + b, sep) == [a] + Split(b, sep)
  {
    if a == [] {
      assert ([] + [sep] + b)[1..] == b;
    } else {
      assert (a + [sep] + b)[1..] == a[1..] + [sep] + b;
      SplitAfterPiece(a[1..], sep, b);
      assert [a[0]] + a[1..] == a;
    }
  }

  /** Splitting a join of separator-free pieces gives back the pieces. */
  lemma {:induction false} SplitJoin(parts: seq<string>, sep: char)
    requires |parts| >= 1
    requires forall k | 0 <= k < |parts| :: sep !in parts[k]
    ensures Split(Join(parts, sep), sep) == parts
  {
    if |parts| == 1 {
      SplitNoSep(parts[0], sep);
    } else {
      SplitJoin(parts[1..], sep);
      SplitAfterPiece(parts[0], sep, Join(parts[1..], sep));
      assert [parts[0]] + parts[1..] == parts;
    }
  }

  /** A join contains no character that is neither the separator nor in a piece. */
  lemma {:induction false} JoinKeepsOut(parts: seq<string>, sep: char, c: char)
    requires c != sep
    requires forall k | 0 <= k < |parts| :: c !in parts[k]
    ensures c !in Join(parts, sep)
  {
    if |parts| > 1 {
      JoinKeepsOut(parts[1..], sep, c);
    }
  }

  // ---- substring separators, as in `comment.split(" - ")` ----

  predicate StartsWith(s: string, prefix: string) {
    |prefix| <= |s| && s[..|prefix|] == prefix
  }

  /** `sep` occurs in `s` at index `i`. */
  predicate OccursAt(s: string, sep: string, i: int) {
    0 <= i && i + |sep| <= |s| && forall t | 0 <= t < |sep| :: s[i + t] == sep[t]
  }

  /** Python's `sep in s`. */
  predicate Contains(s: string, sep: string) {
    exists i | 0 <= i <= |s| :: OccursAt(s, sep, i)
  }

  /** `s.find(sep, k)`: the leftmost occurrence of `sep` at or after `k`. */
  function FindFrom(s: string, sep: string, k: nat): (r: Option<nat>)
    requires |sep| > 0
    ensures r.Some? ==> k <= r.value && r.value + |sep| <= |s|
    decreases |s| - k
  {
    if k + |sep| > |s| then None
    else if OccursAt(s, sep, k) then Some(k)
    else FindFrom(s, sep, k + 1)
  }

  /** The search from `k` finds an occurrence with none between `k` and it,
      and finds nothing only when `sep` does not occur at or after `k`. */
  lemma {:induction false} FindFromSpec(s: string, sep: string, k: nat)
    requires |sep| > 0
    ensures var r := FindFrom(s, sep, k);
      (r.Some? ==> OccursAt(s, sep, r.value) && forall q | k <= q < r.value :: !OccursAt(s, sep, q))
      && (r.None? ==> forall q | k <= q :: !OccursAt(s, sep, q))
    decreases |s| - k
  {
    if k + |sep| <= |s| && !OccursAt(s, sep, k) {
      FindFromSpec(s, sep, k + 1);
    }
  }

  /** Index of the leftmost occurrence of `sep` in `s`, if any. */
  function Find(s: string, sep: string): (r: Option<nat>)
    requires |sep| > 0
    ensures r.Some? ==> r.value + |sep| <= |s|
  {
    FindFrom(s, sep, 0)
  }

  /** The search finds an index exactly when `sep` occurs in `s`, and the
      index found is the leftmost occurrence. */
  lemma FindSpec(s: string, sep: string)
    requires |sep| > 0
    ensures var r := Find(s, sep);
      (r.None? <==> !Contains(s, sep))
      && (r.Some? ==> OccursAt(s, sep, r.value) && forall q | 0 <= q < r.value :: !OccursAt(s, sep, q))
  {
    FindFromSpec(s, sep, 0);
  }

  /** `Find` succeeds exactly when `sep` occurs. */
  lemma FindFound(s: string, sep: string)
    requires |sep| > 0
    ensures Find(s, sep).Some? <==> Contains(s, sep)
  {
    FindSpec(s, sep);
  }

  /** The piece of `s.split(sep)` that starts at `k`: the text up to the next
      occurrence of `sep`, or to the end. */
  function PieceFrom(s: string, sep: string, k: nat): string
    requires |sep| > 0 && k <= |s|
  {
    match FindFrom(s, sep, k)
    case None => s[k..]
    case Some(e) => s[k..e]
  }

  /** The pieces of `s.split(sep)` from position `k` on. */
  function SplitFrom(s: string, sep: string, k: nat): (parts: seq<string>)
    requires |sep| > 0 && k <= |s|
    ensures |parts| >= 1
    decreases |s| - k
  {
    match FindFrom(s, sep, k)
    case None => [s[k..]]
    case Some(e) => [s[k..e]] + SplitFrom(s, sep, e + |sep|)
  }

  /** `s.split(sep)` for a non-empty separator: the pieces between the
      occurrences of `sep`, found from left to right. */
  function SplitOn(s: string, sep: string): seq<string>
    requires |sep| > 0
  {
    SplitFrom(s, sep, 0)
  }

  /** The piece from `k` is a prefix of `s[k..]` free of `sep` that ends at
      the end of `s` or at an occurrence of `sep`, and no occurrence of `sep`
      starts inside it: it ends at the first occurrence at or after `k`. */
  lemma PieceFromSpec(s: string, sep: string, k: nat)
    requires |sep| > 0 && k <= |s|
    ensures var p := PieceFrom(s, sep, k);
      StartsWith(s[k..], p) && !Contains(p, sep)
      && (k + |p| == |s| || OccursAt(s, sep, k + |p|))
    ensures forall q | k <= q < k + |PieceFrom(s, sep, k)| :: !OccursAt(s, sep, q)
  {
    FindFromSpec(s, sep, k);
    var p := PieceFrom(s, sep, k);
    var e := if FindFrom(s, sep, k).Some? then FindFrom(s, sep, k).value else |s|;
    assert p == s[k..e];
    assert s[k..][..|p|] == p;
    forall q | 0 <= q <= |p|
      ensures !OccursAt(p, sep, q)
    {
      if q + |sep| <= |p| {
        assert !OccursAt(s, sep, k + q);
      }
    }
  }

  /** `s.split(sep)[1] if sep in s else ""`: the piece that follows the first
      occurrence of `sep`. */
  function SecondPieceOr(s: string, sep: string): string
    requires |sep| > 0
  {
    match Find(s, sep)
    case None => []
    case Some(i) => PieceFrom(s, sep, i + |sep|)
  }

  /** The first piece of a split from `k` is the piece from `k`. */
  lemma SplitFromFirst(s: string, sep: string, k: nat)
    requires |sep| > 0 && k <= |s|
    ensures SplitFrom(s, sep, k)[0] == PieceFrom(s, sep, k)
  {}

  /** The first two pieces of `s.split(sep)`: the text before the first
      occurrence and, when `sep` occurs, the piece after it. */
  lemma SplitOnPieces(s: string, sep: string)
    requires |sep| > 0
    ensures SplitOn(s, sep)[0] == PieceFrom(s, sep, 0)
    ensures Contains(s, sep) ==> |SplitOn(s, sep)| >= 2 && SplitOn(s, sep)[1] == SecondPieceOr(s, sep)
    ensures !Contains(s, sep) ==> SplitOn(s, sep) == [s] && SecondPieceOr(s, sep) == []
  {
    FindFound(s, sep);
    SplitFromFirst(s, sep, 0);
    if Find(s, sep).Some? {
      var i := Find(s, sep).value;
      SplitFromFirst(s, sep, i + |sep|);
    }
  }

  /** Empty when `sep` does not occur in `s`; otherwise the text after the
      first occurrence of `sep` up to the second one or the end, not all that
      follows the first one. */
  lemma SecondPieceOrSpec(s: string, sep: string)
    requires |sep| > 0
    ensures !Contains(s, sep) ==> SecondPieceOr(s, sep) == []
    ensures Contains(s, sep) ==>
      Find(s, sep).Some?
      && var i, d := Find(s, sep).value, SecondPieceOr(s, sep);
         StartsWith(s[i + |sep|..], d) && !Contains(d, sep)
         && (i + |sep| + |d| == |s| || OccursAt(s, sep, i + |sep| + |d|))
    ensures Find(s, sep).Some? ==>
      var i, d := Find(s, sep).value, SecondPieceOr(s, sep);
      forall q | i + |sep| <= q < i + |sep| + |d| :: !OccursAt(s, sep, q)
  {
    FindFound(s, sep);
    if Find(s, sep).Some? {
      SecondPieceAfter(s, sep, Find(s, sep).value);
    }
  }

  /** The second piece when the first occurrence of `sep` is at `i`. */
  lemma SecondPieceAfter(s: string, sep: string, i: nat)
    requires |sep| > 0 && Find(s, sep) == Some(i)
    ensures i + |sep| <= |s|
    ensures StartsWith(s[i + |sep|..], SecondPieceOr(s, sep))
    ensures !Contains(SecondPieceOr(s, sep), sep)
    ensures i + |sep| + |SecondPieceOr(s, sep)| == |s| || OccursAt(s, sep, i + |sep| + |SecondPieceOr(s, sep)|)
    ensures forall q | i + |sep| <= q < i + |sep| + |SecondPieceOr(s, sep)| :: !OccursAt(s, sep, q)
  {
    assert SecondPieceOr(s, sep) == PieceFrom(s, sep, i + |sep|);
    PieceFromSpec(s, sep, i + |sep|);
  }

  /** The piece holds no character that `s` does not hold. */
  lemma SecondPieceOrKeepsOut(s: string, sep: string, c: char)
    requires |sep| > 0 && c !in s
    ensures c !in SecondPieceOr(s, sep)
  {
    if Find(s, sep).Some? {
      var j := Find(s, sep).value + |sep|;
      var d := SecondPieceOr(s, sep);
      PieceFromSpec(s, sep, j);
      assert d == s[j..][..|d|];
    }
  }
}
