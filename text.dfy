/** The few Python `str` operations the pipeline relies on: `strip()`,
    `upper()`, `startswith`, `in` and `join`, restricted to ASCII. */
module Text {

  /** `c.isspace()` for an ASCII character: space, \t \n \v \f \r and the
      separators \x1c..\x1f. */
  predicate IsSpace(c: char) {
    c == ' ' || (9 as char <= c <= 13 as char) || (28 as char <= c <= 31 as char)
  }

  /** Every character of `s` from index `lo` up to `hi` is whitespace. */
  predicate SpaceBetween(s: string, lo: int, hi: int)
    requires 0 <= lo <= hi <= |s|
  {
    forall k :: lo <= k < hi ==> IsSpace(s[k])
  }

  predicate AllSpace(s: string) {
    SpaceBetween(s, 0, |s|)
  }

  /** Neither end of `s` is whitespace: the shape `strip()` leaves behind. */
  predicate Stripped(s: string) {
    s == [] || (!IsSpace(s[0]) && !IsSpace(s[|s| - 1]))
  }

  /** The index of the first non-whitespace character, or |s| if there is none. */
  function LeadingSpaces(s: string): (n: nat)
    ensures n <= |s|
    ensures SpaceBetween(s, 0, n)
    ensures n < |s| ==> !IsSpace(s[n])
  {
    if s == [] || !IsSpace(s[0]) then 0
    else
      var m := LeadingSpaces(s[1..]);
      assert forall k :: 1 <= k < 1 + m ==> s[k] == s[1..][k - 1];
      1 + m
  }

  /** The length of `s` once its trailing whitespace is cut off. */
  function TrailingStart(s: string): (n: nat)
    ensures n <= |s|
    ensures SpaceBetween(s, n, |s|)
    ensures n > 0 ==> !IsSpace(s[n - 1])
  {
    if s == [] || !IsSpace(s[|s| - 1]) then |s|
    else TrailingStart(s[..|s| - 1])
  }

  /** `s.strip()`: `s` without leading and trailing whitespace. */
  function Strip(s: string): (r: string)
    ensures Stripped(r)
    ensures |r| <= |s|
    ensures Stripped(s) ==> r == s
    ensures |s| > 0 && !IsSpace(s[|s| - 1]) ==> |r| > 0 && r[|r| - 1] == s[|s| - 1]
  {
    var i := LeadingSpaces(s);
    if i == |s| then [] else s[i..TrailingStart(s)]
  }

  /** `strip()` keeps every occurrence of a character that is not whitespace. */
  lemma StripKeepsCount(s: string, c: char)
    requires !IsSpace(c)
    ensures multiset(Strip(s))[c] == multiset(s)[c]
  {
    var i := LeadingSpaces(s);
    var j := if i == |s| then i else TrailingStart(s);
    assert s == s[..i] + s[i..j] + s[j..];
    assert Strip(s) == s[i..j];
    NoneInSpace(s[..i], c);
    NoneInSpace(s[j..], c);
  }

  lemma NoneInSpace(s: string, c: char)
    requires AllSpace(s) && !IsSpace(c)
    ensures multiset(s)[c] == 0
  {
    assert c !in s;
  }

  /** Stripping a text with a non-whitespace character appended removes only
      its leading whitespace: trailing whitespace now sits before that character. */
  lemma StripAppended(s: string, c: char)
    requires !IsSpace(c)
    ensures Strip(s + [c]) == s[LeadingSpaces(s)..] + [c]
  {
    var i := LeadingSpaces(s);
    LeadingSpacesAppend(s, c);
    StripNonSpaceEnd(s + [c]);
    assert (s + [c])[i..] == s[i..] + [c];
  }

  /** A character after the text does not move its first non-whitespace index. */
  lemma LeadingSpacesAppend(s: string, c: char)
    requires !IsSpace(c)
    ensures LeadingSpaces(s + [c]) == LeadingSpaces(s)
  {
    var t := s + [c];
    var i := LeadingSpaces(s);
    assert SpaceBetween(t, 0, i) by {
      forall k | 0 <= k < i
        ensures IsSpace(t[k])
      {
        assert t[k] == s[k];
      }
    }
    assert !IsSpace(t[i]) by {
      if i < |s| {
        assert t[i] == s[i];
      }
    }
    LeadingSpacesUnique(t, i);
  }

  /** A text that ends in a non-whitespace character only loses its leading whitespace. */
  lemma StripNonSpaceEnd(t: string)
    requires t != [] && !IsSpace(t[|t| - 1])
    ensures Strip(t) == t[LeadingSpaces(t)..]
  {
    TrailingStartUnique(t, |t|);
  }

  /** The first non-whitespace index is the only index with whitespace before it and none at it. */
  lemma LeadingSpacesUnique(s: string, i: nat)
    requires i <= |s| && SpaceBetween(s, 0, i) && (i < |s| ==> !IsSpace(s[i]))
    ensures LeadingSpaces(s) == i
  {
  }

  /** Likewise for where the trailing whitespace starts. */
  lemma TrailingStartUnique(s: string, j: nat)
    requires j <= |s| && SpaceBetween(s, j, |s|) && (j > 0 ==> !IsSpace(s[j - 1]))
    ensures TrailingStart(s) == j
  {
  }

  /** The slice `strip()` keeps: the unique one with whitespace-only ends cut off
      and no whitespace at either of its own ends. */
  lemma StripCharacterized(s: string, i: nat, j: nat)
    requires i <= j <= |s|
    requires SpaceBetween(s, 0, i) && SpaceBetween(s, j, |s|) && Stripped(s[i..j])
    ensures Strip(s) == s[i..j]
  {
    if i == j {
      assert SpaceBetween(s, 0, |s|);
      LeadingSpacesUnique(s, |s|);
    } else {
      assert s[i..j][0] == s[i] && s[i..j][j - i - 1] == s[j - 1];
      LeadingSpacesUnique(s, i);
      TrailingStartUnique(s, j);
    }
  }

  /** Whitespace padding around a text does not change what `strip()` returns. */
  lemma StripIgnoresPadding(front: string, s: string, back: string)
    requires AllSpace(front) && AllSpace(back)
    ensures Strip(front + s + back) == Strip(s)
  {
    var i := LeadingSpaces(s);
    var j := if i == |s| then i else TrailingStart(s);
    assert Strip(s) == s[i..j];
    PaddingKeepsSlice(front, s, back, i, j);
    StripCharacterized(front + s + back, |front| + i, |front| + j);
  }

  /** A slice with whitespace-only surroundings keeps them once padded with more whitespace. */
  lemma PaddingKeepsSlice(front: string, s: string, back: string, i: nat, j: nat)
    requires AllSpace(front) && AllSpace(back)
    requires i <= j <= |s| && SpaceBetween(s, 0, i) && SpaceBetween(s, j, |s|)
    ensures var p, f := front + s + back, |front|;
      SpaceBetween(p, 0, f + i) && SpaceBetween(p, f + j, |p|) && p[f + i .. f + j] == s[i..j]
  {
    var p := front + s + back;
    var f := |front|;
    assert forall k :: 0 <= k < f ==> p[k] == front[k];
    assert forall k :: f <= k < f + |s| ==> p[k] == s[k - f];
    assert forall k :: f + |s| <= k < |p| ==> p[k] == back[k - f - |s|];
    assert p[f + i .. f + j] == s[i..j];
  }

  /** Python's `str.upper()` on one ASCII character. */
  function UpperChar(c: char): char {
    if 'a' <= c <= 'z' then (c as int - 32) as char else c
  }

  /** `s.upper()`, ASCII letters only. */
  function Upper(s: string): (r: string)
    ensures |r| == |s|
    ensures forall k :: 0 <= k < |s| ==> r[k] == UpperChar(s[k])
  {
    seq(|s|, k requires 0 <= k < |s| => UpperChar(s[k]))
  }

  /** Two texts that differ at most in the case of ASCII letters. */
  predicate SameIgnoringCase(a: string, b: string) {
    |a| == |b| && forall k :: 0 <= k < |a| ==> UpperChar(a[k]) == UpperChar(b[k])
  }

  /** Changing letter case never turns a character into whitespace or back. */
  lemma SpaceIgnoresCase(x: char, y: char)
    requires UpperChar(x) == UpperChar(y)
    ensures IsSpace(x) == IsSpace(y)
  {
  }

  /** `s.startswith(p)`. */
  predicate StartsWith(s: string, p: string) {
    |p| <= |s| && s[..|p|] == p
  }

  /** The lengths of all the parts added up. */
  function TotalLength(parts: seq<string>): nat {
    if parts == [] then 0 else |parts[0]| + TotalLength(parts[1..])
  }

  /** `sep.join(parts)`: the parts with one separator between neighbours. */
  function Join(sep: string, parts: seq<string>): string
  {
    if parts == [] then ""
    else if |parts| == 1 then parts[0]
    else parts[0] + sep + Join(sep, parts[1..])
  }

  /** The joined text is as long as the parts together plus one separator
      between each two neighbours. */
  lemma {:induction false} JoinLength(sep: string, parts: seq<string>)
    ensures |Join(sep, parts)| == TotalLength(parts) + (if parts == [] then 0 else (|parts| - 1) * |sep|)
  {
    if |parts| > 1 {
      JoinLength(sep, parts[1..]);
      assert (|parts| - 1) * |sep| == |sep| + (|parts| - 2) * |sep|;
    }
  }

  /** Where the k-th part begins in `sep.join(parts)`. */
  function JoinOffset(sep: string, parts: seq<string>, k: nat): nat
    requires k <= |parts|
  {
    if k == 0 then 0 else JoinOffset(sep, parts, k - 1) + |parts[k - 1]| + |sep|
  }

  /** Each part appears verbatim in `sep.join(parts)` at its offset, preceded
      by the separator (except the first), and the last part ends the text. */
  lemma {:induction false} JoinAt(sep: string, parts: seq<string>, k: nat)
    requires k < |parts|
    ensures JoinOffset(sep, parts, k) + |parts[k]| <= |Join(sep, parts)|
    ensures Join(sep, parts)[JoinOffset(sep, parts, k) .. JoinOffset(sep, parts, k) + |parts[k]|] == parts[k]
    ensures k > 0 ==> Join(sep, parts)[JoinOffset(sep, parts, k) - |sep| .. JoinOffset(sep, parts, k)] == sep
    ensures k == |parts| - 1 ==> JoinOffset(sep, parts, k) + |parts[k]| == |Join(sep, parts)|
  {
    if k == 0 {
      if |parts| > 1 {
        SliceOfConcat(parts[0], sep + Join(sep, parts[1..]), 0, |parts[0]|);
      }
    } else {
      JoinAt(sep, parts[1..], k - 1);
      JoinAtShift(sep, parts, k);
    }
  }

  /** The step of `JoinAt`: what holds of the k-1-th of the later parts
      holds of the k-th part once the first part and a separator come before. */
  lemma JoinAtShift(sep: string, parts: seq<string>, k: nat)
    requires 0 < k < |parts|
    requires var rest, o' := parts[1..], JoinOffset(sep, parts[1..], k - 1);
      o' + |rest[k - 1]| <= |Join(sep, rest)| &&
      Join(sep, rest)[o' .. o' + |rest[k - 1]|] == rest[k - 1] &&
      (k - 1 > 0 ==> Join(sep, rest)[o' - |sep| .. o'] == sep) &&
      (k - 1 == |rest| - 1 ==> o' + |rest[k - 1]| == |Join(sep, rest)|)
    ensures var o := JoinOffset(sep, parts, k);
      o + |parts[k]| <= |Join(sep, parts)| &&
      Join(sep, parts)[o .. o + |parts[k]|] == parts[k] &&
      Join(sep, parts)[o - |sep| .. o] == sep &&
      (k == |parts| - 1 ==> o + |parts[k]| == |Join(sep, parts)|)
  {
    var rest := parts[1..];
    var head := parts[0] + sep;
    var j := Join(sep, parts);
    assert j == head + Join(sep, rest);
    OffsetShift(sep, parts, k);
    var o := JoinOffset(sep, parts, k);
    assert o == |head| + JoinOffset(sep, rest, k - 1);
    assert rest[k - 1] == parts[k];
    SliceOfConcat(head, Join(sep, rest), o, o + |parts[k]|);
    SliceOfConcat(head, Join(sep, rest), o - |sep|, o);
    if k == 1 {
      assert head[o - |sep| .. o] == sep;
    }
  }

  /** A slice of `a + b` that lies within `a`, or within `b`, is that slice of `a` or of `b`. */
  lemma SliceOfConcat(a: string, b: string, lo: nat, hi: nat)
    requires lo <= hi <= |a| + |b|
    ensures hi <= |a| ==> (a + b)[lo..hi] == a[lo..hi]
    ensures |a| <= lo ==> (a + b)[lo..hi] == b[lo - |a| .. hi - |a|]
  {
  }

  /** With a newline as separator: each part at its offset, a newline before all but the first. */
  lemma JoinNewlineAt(parts: seq<string>, k: nat)
    requires k < |parts|
    ensures var o, s := JoinOffset("\n", parts, k), Join("\n", parts);
      o + |parts[k]| <= |s| && s[o .. o + |parts[k]|] == parts[k] && (k > 0 ==> s[o - 1] == '\n')
  {
    var o, s := JoinOffset("\n", parts, k), Join("\n", parts);
    JoinAt("\n", parts, k);
    if k > 0 {
      assert s[o - 1] == s[o - 1 .. o][0];
    }
  }

  /** Offsets in `parts` are offsets in `parts[1..]` shifted by the first part and a separator. */
  lemma {:induction false} OffsetShift(sep: string, parts: seq<string>, k: nat)
    requires 0 < k <= |parts|
    ensures JoinOffset(sep, parts, k) == |parts[0]| + |sep| + JoinOffset(sep, parts[1..], k - 1)
  {
    if k > 1 {
      OffsetShift(sep, parts, k - 1);
    }
  }
}
