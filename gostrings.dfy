/**
 * The part of Go's `strings` package that the two programs use, over strings
 * of runes (`seq<char>`): `ToLower`, `TrimSpace`, `Index`, `Split` and the
 * `SplitN(s, sep, 2)` used for slugs. `Join` is the inverse of `Split`.
 */
module GoStrings {

  /** The white-space runes of Go's `unicode.IsSpace`, listed one by one. */
  function SpaceRunes(): set<char> {
    {' ', '\t', '\n', '\r', '\U{000B}', '\U{000C}', '\U{0085}', '\U{00A0}', '\U{1680}',
    '\U{2000}', '\U{2001}', '\U{2002}', '\U{2003}', '\U{2004}', '\U{2005}', '\U{2006}', '\U{2007}',
    '\U{2008}', '\U{2009}', '\U{200A}', '\U{2028}', '\U{2029}', '\U{202F}', '\U{205F}', '\U{3000}'}
  }

  /** Go's `unicode.IsSpace`, tested by ranges as the Go code tests it. */
  predicate IsSpace(c: char) {
    || c == ' ' || c == '\t' || c == '\n' || c == '\r'
    || c == '\U{000B}' || c == '\U{000C}' || c == '\U{0085}' || c == '\U{00A0}'
    || c == '\U{1680}' || ('\U{2000}' <= c <= '\U{200A}')
    || c == '\U{2028}' || c == '\U{2029}' || c == '\U{202F}' || c == '\U{205F}' || c == '\U{3000}'
  }

  /** The range test accepts exactly the listed runes. */
  lemma IsSpaceListed(c: char)
    ensures IsSpace(c) <==> c in SpaceRunes()
  {
  }

  ghost predicate AllSpace(s: string) {
    forall i :: 0 <= i < |s| ==> IsSpace(s[i])
  }

  /** Neither the first nor the last rune is white space. */
  predicate NoOuterSpace(s: string) {
    s == [] || (!IsSpace(s[0]) && !IsSpace(s[|s| - 1]))
  }

  /** ASCII case mapping of one rune. */
  function LowerChar(c: char): char {
    if 'A' <= c <= 'Z' then (c as int + 32) as char else c
  }

  /** `strings.ToLower`, for the ASCII letters. */
  function ToLower(s: string): (r: string)
    ensures |r| == |s|
    ensures forall i :: 0 <= i < |s| ==> r[i] == LowerChar(s[i])
  {
    if s == [] then [] else [LowerChar(s[0])] + ToLower(s[1..])
  }

  /** ASCII upper-case of a lower-case letter. */
  function UpperChar(c: char): char {
    if 'a' <= c <= 'z' then (c as int - 32) as char else c
  }

  lemma LowerCharIsLetter(c: char, w: char)
    requires 'a' <= w <= 'z'
    ensures LowerChar(c) == w <==> c == w || c == UpperChar(w)
  {
  }

  /** Lower-casing `s` gives the lower-case word `w` exactly when `s` spells `w` in either case, letter by letter. */
  lemma ToLowerEqualsWord(s: string, w: string)
    requires forall i :: 0 <= i < |w| ==> 'a' <= w[i] <= 'z'
    ensures ToLower(s) == w <==>
      |s| == |w| && forall i :: 0 <= i < |w| ==> s[i] == w[i] || s[i] == UpperChar(w[i])
  {
    forall i | 0 <= i < |s| && i < |w|
      ensures ToLower(s)[i] == w[i] <==> s[i] == w[i] || s[i] == UpperChar(w[i])
    {
      LowerCharIsLetter(s[i], w[i]);
    }
    if |s| == |w| && forall i :: 0 <= i < |w| ==> s[i] == w[i] || s[i] == UpperChar(w[i]) {
      assert forall i :: 0 <= i < |w| ==> ToLower(s)[i] == w[i];
    }
  }

  /** `s` without its leading white space. */
  function TrimLeft(s: string): (r: string)
    ensures |r| <= |s| && r == s[|s| - |r|..]
    ensures forall i :: 0 <= i < |s| - |r| ==> IsSpace(s[i])
    ensures r != [] ==> !IsSpace(r[0])
  {
    if s != [] && IsSpace(s[0]) then
      var r := TrimLeft(s[1..]);
      assert s[1..][|s| - 1 - |r|..] == s[|s| - |r|..];
      assert forall i :: 1 <= i < |s| - |r| ==> s[i] == s[1..][i - 1];
      r
    else s
  }

  /** `s` without its trailing white space. */
  function TrimRight(s: string): (r: string)
    ensures |r| <= |s| && r == s[..|r|]
    ensures forall i :: |r| <= i < |s| ==> IsSpace(s[i])
    ensures r != [] ==> !IsSpace(r[|r| - 1])
  {
    if s != [] && IsSpace(s[|s| - 1]) then TrimRight(s[..|s| - 1]) else s
  }

  /**
   * `strings.TrimSpace`: `s` with all leading and trailing white space
   * removed, and nothing else.
   */
  function TrimSpace(s: string): (r: string)
    ensures NoOuterSpace(r)
    ensures exists i, j :: 0 <= i <= j <= |s| && r == s[i..j] && AllSpace(s[..i]) && AllSpace(s[j..])
  {
    var l := TrimLeft(s);
    var r := TrimRight(l);
    var i := |s| - |l|;
    LeadingSpace(s);
    TrailingSpace(l);
    SpaceAround(s, l, r);
    assert r != [] ==> r[0] == l[0];
    r
  }

  /**
   * A suffix `l` of `s` after white space, cut before white space to `r`, is
   * a slice of `s` with white space on both sides.
   */
  lemma SpaceAround(s: string, l: string, r: string)
    requires |l| <= |s| && l == s[|s| - |l|..] && AllSpace(s[..|s| - |l|])
    requires |r| <= |l| && r == l[..|r|] && AllSpace(l[|r|..])
    ensures |s| - |l| + |r| <= |s|
    ensures r == s[|s| - |l|..|s| - |l| + |r|]
    ensures AllSpace(s[|s| - |l| + |r|..])
  {
    var i := |s| - |l|;
    SuffixSlices(s, i, |r|);
  }

  /** Cutting a suffix of `s` at `m` gives the slices of `s` at the shifted position. */
  lemma SuffixSlices<T>(s: seq<T>, i: nat, m: nat)
    requires i + m <= |s|
    ensures s[i..][..m] == s[i..i + m] && s[i..][m..] == s[i + m..]
  {
  }

  /** What `TrimLeft` removes is white space. */
  lemma LeadingSpace(s: string)
    ensures AllSpace(s[..|s| - |TrimLeft(s)|])
  {
    var a := s[..|s| - |TrimLeft(s)|];
    assert forall k :: 0 <= k < |a| ==> a[k] == s[k];
  }

  /** What `TrimRight` removes is white space. */
  lemma TrailingSpace(l: string)
    ensures AllSpace(l[|TrimRight(l)|..])
  {
    var r := TrimRight(l);
    var b := l[|r|..];
    assert forall k :: 0 <= k < |b| ==> b[k] == l[|r| + k];
  }

  /** A string without white space at either end is its own trimming. */
  lemma TrimSpaceKeepsClean(s: string)
    requires NoOuterSpace(s)
    ensures TrimSpace(s) == s
  {
  }

  /** Trimming twice is trimming once. */
  lemma TrimSpaceIdempotent(s: string)
    ensures TrimSpace(TrimSpace(s)) == TrimSpace(s)
  {
    TrimSpaceKeepsClean(TrimSpace(s));
  }

  /** `sep` occurs in `s` at position `i`. */
  predicate OccursAt(s: string, sep: string, i: int) {
    0 <= i && i + |sep| <= |s| && s[i..i + |sep|] == sep
  }

  /** Occurrences in `s[1..]` are those in `s`, shifted by one. */
  lemma OccursShifted(s: string, sep: string)
    requires s != []
    ensures forall i {:trigger OccursAt(s, sep, i)} :: 1 <= i ==> (OccursAt(s, sep, i) <==> OccursAt(s[1..], sep, i - 1))
  {
    forall i | 1 <= i
      ensures OccursAt(s, sep, i) <==> OccursAt(s[1..], sep, i - 1)
    {
      if i + |sep| <= |s| {
        assert s[1..][i - 1..] == s[i..];
        assert s[i..i + |sep|] == s[i..][..|sep|];
      }
    }
  }

  /** An occurrence that ends within `t` is an occurrence in `t + rest`, and conversely. */
  lemma OccursInPrefix(t: string, rest: string, sep: string, i: int)
    requires 0 <= i && i + |sep| <= |t|
    ensures OccursAt(t + rest, sep, i) <==> OccursAt(t, sep, i)
  {
    assert (t + rest)[i..i + |sep|] == t[i..i + |sep|];
  }

  /** `strings.Index`: the first position where `sep` occurs in `s`, or -1. */
  function Index(s: string, sep: string): (k: int)
    ensures -1 <= k <= |s|
    ensures k == -1 <==> forall i :: 0 <= i <= |s| ==> !OccursAt(s, sep, i)
    ensures k >= 0 ==> OccursAt(s, sep, k) && forall i :: 0 <= i < k ==> !OccursAt(s, sep, i)
    decreases |s|
  {
    if |s| < |sep| then -1
    else if s[..|sep|] == sep then assert s[0..|sep|] == sep && OccursAt(s, sep, 0); 0
    else
      var k := Index(s[1..], sep);
      OccursShifted(s, sep);
      assert !OccursAt(s, sep, 0);
      if k < 0 then -1 else assert OccursAt(s, sep, k + 1); k + 1
  }

  /** The first occurrence is determined by its two defining properties. */
  lemma IndexIs(s: string, sep: string, k: int)
    requires OccursAt(s, sep, k)
    requires forall i :: 0 <= i < k ==> !OccursAt(s, sep, i)
    ensures Index(s, sep) == k
  {
    var j := Index(s, sep);
    assert j != -1;
    if j < k { assert OccursAt(s, sep, j); }
  }

  /**
   * `strings.Split` for a non-empty separator: the pieces of `s` between the
   * successive non-overlapping occurrences of `sep`, scanning from the left.
   */
  function Split(s: string, sep: string): (parts: seq<string>)
    requires sep != []
    ensures |parts| >= 1
    decreases |s|
  {
    var k := Index(s, sep);
    if k < 0 then [s] else [s[..k]] + Split(s[k + |sep|..], sep)
  }

  /** `strings.Join`: the parts with `sep` between consecutive ones. */
  function Join(parts: seq<string>, sep: string): string {
    if |parts| == 0 then ""
    else if |parts| == 1 then parts[0]
    else parts[0] + sep + Join(parts[1..], sep)
  }

  /** One step of `Split` at the first occurrence. */
  lemma SplitAt(s: string, sep: string)
    requires sep != [] && Index(s, sep) >= 0
    ensures var k := Index(s, sep); Split(s, sep) == [s[..k]] + Split(s[k + |sep|..], sep)
  {
  }

  /** A string is the text before an occurrence, the separator, and the text after it. */
  lemma AroundOccurrence(s: string, sep: string, k: int)
    requires OccursAt(s, sep, k)
    ensures s == s[..k] + sep + s[k + |sep|..]
  {
    assert s[k..] == s[k..k + |sep|] + s[k + |sep|..];
    assert s == s[..k] + s[k..];
  }

  lemma JoinCons(p: string, parts: seq<string>, sep: string)
    requires parts != []
    ensures Join([p] + parts, sep) == p + sep + Join(parts, sep)
  {
    assert ([p] + parts)[1..] == parts;
  }

  /** The text before the first occurrence holds no occurrence. */
  lemma FreeBeforeIndex(s: string, sep: string)
    requires sep != [] && Index(s, sep) >= 0
    ensures Index(s[..Index(s, sep)], sep) == -1
  {
    var k := Index(s, sep);
    var t := s[..k];
    forall i | 0 <= i <= k ensures !OccursAt(t, sep, i) {
      if i + |sep| <= k {
        assert t[i..i + |sep|] == s[i..i + |sep|];
        assert !OccursAt(s, sep, i);
      }
    }
  }

  /** Joining the pieces of a split gives back the original string. */
  lemma {:induction false} JoinSplit(s: string, sep: string)
    requires sep != []
    ensures Join(Split(s, sep), sep) == s
    decreases |s|
  {
    var k := Index(s, sep);
    if k >= 0 {
      var rest := s[k + |sep|..];
      JoinSplit(rest, sep);
      SplitAt(s, sep);
      JoinCons(s[..k], Split(rest, sep), sep);
      AroundOccurrence(s, sep, k);
    }
  }

  /** The first piece of a split holds no occurrence of the separator. */
  lemma FirstPartFree(s: string, sep: string)
    requires sep != []
    ensures Index(Split(s, sep)[0], sep) == -1
  {
    if Index(s, sep) >= 0 {
      SplitAt(s, sep);
      FreeBeforeIndex(s, sep);
    }
  }

  /** The pieces after the first are the pieces of the text after the first occurrence. */
  lemma LaterPart(s: string, sep: string, i: int)
    requires sep != [] && 0 < i < |Split(s, sep)|
    ensures Index(s, sep) >= 0 && Split(s, sep)[i] == Split(s[Index(s, sep) + |sep|..], sep)[i - 1]
  {
    if Index(s, sep) >= 0 {
      SplitAt(s, sep);
    }
  }

  /** No piece of a split contains the separator. */
  lemma {:induction false} SplitPartsAreFree(s: string, sep: string, i: int)
    requires sep != [] && 0 <= i < |Split(s, sep)|
    ensures Index(Split(s, sep)[i], sep) == -1
    decreases |s|
  {
    if i == 0 {
      FirstPartFree(s, sep);
    } else {
      LaterPart(s, sep, i);
      SplitPartsAreFree(s[Index(s, sep) + |sep|..], sep, i - 1);
    }
  }

  /**
   * When the first occurrence of `sep` in `a + sep` is the appended one,
   * it is also the first occurrence in `a + sep + rest`.
   */
  lemma IndexOfDelimited(a: string, sep: string, rest: string)
    requires Index(a + sep, sep) == |a|
    ensures Index(a + sep + rest, sep) == |a|
  {
    var t := a + sep;
    forall i | 0 <= i < |a| ensures !OccursAt(t + rest, sep, i) {
      OccursInPrefix(t, rest, sep, i);
    }
    OccursInPrefix(t, rest, sep, |a|);
    IndexIs(t + rest, sep, |a|);
  }

  /** A separator whose first rune does not appear in `a` first occurs in `a + sep` right after `a`. */
  lemma IndexAfterFreePrefix(a: string, sep: string)
    requires sep != [] && sep[0] !in a
    ensures Index(a + sep, sep) == |a|
  {
    var s := a + sep;
    assert s[|a|..|a| + |sep|] == sep;
    IndexIs(s, sep, |a|);
  }

  /** Splitting `a + sep + rest` where `a` ends cleanly before `sep` yields `a` followed by the pieces of `rest`. */
  lemma SplitDelimited(a: string, sep: string, rest: string)
    requires sep != [] && Index(a + sep, sep) == |a|
    ensures Split(a + sep + rest, sep) == [a] + Split(rest, sep)
  {
    IndexOfDelimited(a, sep, rest);
    var s := a + sep + rest;
    assert s[..|a|] == a && s[|a| + |sep|..] == rest;
  }

  /** A string without the separator's first rune holds no occurrence of it. */
  lemma IndexOfFree(p: string, sep: string)
    requires sep != [] && sep[0] !in p
    ensures Index(p, sep) == -1
  {
    forall i | 0 <= i <= |p| ensures !OccursAt(p, sep, i) {
      if i + |sep| <= |p| {
        assert p[i..i + |sep|][0] == p[i];
      }
    }
  }

  /** For parts free of the separator's first rune, splitting undoes joining. */
  lemma {:induction false} SplitJoin(parts: seq<string>, sep: string)
    requires sep != [] && |parts| >= 1
    requires forall i :: 0 <= i < |parts| ==> sep[0] !in parts[i]
    ensures Split(Join(parts, sep), sep) == parts
    decreases |parts|
  {
    if |parts| == 1 {
      IndexOfFree(parts[0], sep);
    } else {
      var tail := parts[1..];
      assert Join(parts, sep) == parts[0] + sep + Join(tail, sep);
      IndexAfterFreePrefix(parts[0], sep);
      SplitDelimited(parts[0], sep, Join(tail, sep));
      assert forall i :: 0 <= i < |tail| ==> tail[i] == parts[i + 1];
      SplitJoin(tail, sep);
      assert parts == [parts[0]] + tail;
    }
  }

  /** A one-rune separator occurs exactly where that rune stands. */
  lemma RuneAt(s: string, c: char, i: int)
    requires 0 <= i < |s|
    ensures OccursAt(s, [c], i) <==> s[i] == c
  {
    assert s[i..i + 1] == [s[i]];
  }

  /** For a one-rune separator, `Index` finds the first position holding that rune. */
  lemma IndexOfRune(s: string, c: char)
    ensures Index(s, [c]) == -1 <==> c !in s
    ensures Index(s, [c]) >= 0 ==> s[Index(s, [c])] == c && c !in s[..Index(s, [c])]
  {
    var k := Index(s, [c]);
    if c in s {
      var i :| 0 <= i < |s| && s[i] == c;
      RuneAt(s, c, i);
    }
    if k >= 0 {
      RuneAt(s, c, k);
      forall j | 0 <= j < k
        ensures s[..k][j] != c
      {
        RuneAt(s, c, j);
      }
    }
  }

  /**
   * `strings.SplitN(s, sep, 2)` for a non-empty separator: the text before
   * and after the first occurrence of `sep`, or `[s]` when there is none.
   */
  function SplitFirst(s: string, sep: string): (parts: seq<string>)
    requires sep != []
    ensures 1 <= |parts| <= 2
    ensures |parts| == 1 <==> Index(s, sep) == -1
    ensures |parts| == 1 ==> parts[0] == s
    ensures |parts| == 2 ==> s == parts[0] + sep + parts[1] && Index(parts[0] + sep, sep) == |parts[0]|
  {
    var k := Index(s, sep);
    if k < 0 then [s]
    else
      AroundFirst(s, sep);
      [s[..k], s[k + |sep|..]]
  }

  /** The text around the first occurrence of a separator, with the separator put back, has that occurrence first. */
  lemma AroundFirst(s: string, sep: string)
    requires sep != [] && Index(s, sep) >= 0
    ensures var k := Index(s, sep);
      s == s[..k] + sep + s[k + |sep|..] && Index(s[..k] + sep, sep) == k
  {
    var k := Index(s, sep);
    var before, after := s[..k], s[k + |sep|..];
    assert s == before + sep + after;
    assert OccursAt(before + sep, sep, k);
    forall i | 0 <= i < k ensures !OccursAt(before + sep, sep, i) {
      OccursInPrefix(before + sep, after, sep, i);
    }
    IndexIs(before + sep, sep, k);
  }
}
