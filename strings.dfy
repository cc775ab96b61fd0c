/**
 * The JavaScript string operations the core relies on: `split` on a one-character
 * separator, `trim`, `toLowerCase`, a global one-character `replace`, and the
 * character classes `\s` and `\d` of JavaScript regular expressions.
 */
module Strings {

  /** The WhiteSpace and LineTerminator code points of ECMAScript: what `trim` strips and `\s` matches. */
  predicate IsSpace(c: char) {
    c == ' ' || ('\t' <= c <= '\r') || ('\U{00A0}' <= c && IsWideSpace(c))
  }

  /** The non-ASCII members of that set; `'\t'..'\r'` above are TAB, LF, VT, FF and CR. */
  predicate IsWideSpace(c: char) {
    || c == '\U{00A0}' || c == '\U{1680}'
    || ('\U{2000}' <= c <= '\U{200A}')
    || c == '\U{2028}' || c == '\U{2029}' || c == '\U{202F}' || c == '\U{205F}'
    || c == '\U{3000}' || c == '\U{FEFF}'
  }

  /** Regex `\d`: only the ASCII digits. */
  predicate IsDigit(c: char) {
    '0' <= c <= '9'
  }

  predicate AllSpace(s: string) {
    forall i :: 0 <= i < |s| ==> IsSpace(s[i])
  }

  /** Every character of `s` at a position in `[a, b)` is whitespace. */
  predicate BlankBetween(s: string, a: int, b: int) {
    forall k :: a <= k < b && 0 <= k < |s| ==> IsSpace(s[k])
  }

  // ---------------------------------------------------------------------------
  // toLowerCase (ASCII letters only)
  // ---------------------------------------------------------------------------

  function LowerChar(c: char): (d: char)
    ensures !('A' <= d <= 'Z')
    ensures d != c ==> 'A' <= c <= 'Z' && 'a' <= d <= 'z'
    ensures 'A' <= c <= 'Z' ==> d as int == c as int + 32
    ensures !('A' <= c <= 'Z') ==> d == c
  {
    if 'A' <= c <= 'Z' then (c as int + 32) as char else c
  }

  /** Lower-casing maps whitespace to whitespace and nothing else to whitespace. */
  lemma LowerCharSpace(c: char)
    ensures IsSpace(LowerChar(c)) <==> IsSpace(c)
  {
  }

  function Lower(s: string): (r: string)
    ensures |r| == |s|
    ensures forall i :: 0 <= i < |s| ==> r[i] == LowerChar(s[i])
  {
    seq(|s|, i requires 0 <= i < |s| => LowerChar(s[i]))
  }

  lemma LowerIdempotent(s: string)
    ensures Lower(Lower(s)) == Lower(s)
  {
    var l := Lower(s);
    assert forall i :: 0 <= i < |l| ==> LowerChar(l[i]) == l[i];
  }

  lemma LowerEmpty(s: string)
    ensures Lower(s) == [] <==> s == []
  {
  }

  lemma LowerAppend(a: string, b: string)
    ensures Lower(a + b) == Lower(a) + Lower(b)
  {
  }

  // ---------------------------------------------------------------------------
  // trim
  // ---------------------------------------------------------------------------

  /** The position of the first non-whitespace character at or after `i`, or `|s|`. */
  function SkipSpaces(s: string, i: nat): (j: nat)
    requires i <= |s|
    ensures i <= j <= |s|
    ensures j < |s| ==> !IsSpace(s[j])
    decreases |s| - i
  {
    if i < |s| && IsSpace(s[i]) then SkipSpaces(s, i + 1) else i
  }

  /** What `SkipSpaces` passes over is whitespace. */
  lemma {:induction false} SkipSpacesBlank(s: string, i: nat)
    requires i <= |s|
    ensures BlankBetween(s, i, SkipSpaces(s, i))
    decreases |s| - i
  {
    if i < |s| && IsSpace(s[i]) {
      SkipSpacesBlank(s, i + 1);
    }
  }

  /** The position just past the last non-whitespace character in `[lo, j)`, or `lo`. */
  function SkipSpacesBack(s: string, lo: nat, j: nat): (e: nat)
    requires lo <= j <= |s|
    ensures lo <= e <= j
    ensures e > lo ==> !IsSpace(s[e - 1])
    decreases j
  {
    if lo < j && IsSpace(s[j - 1]) then SkipSpacesBack(s, lo, j - 1) else j
  }

  /** What `SkipSpacesBack` passes over is whitespace. */
  lemma {:induction false} SkipSpacesBackBlank(s: string, lo: nat, j: nat)
    requires lo <= j <= |s|
    ensures BlankBetween(s, SkipSpacesBack(s, lo, j), j)
    decreases j
  {
    if lo < j && IsSpace(s[j - 1]) {
      SkipSpacesBackBlank(s, lo, j - 1);
    }
  }

  /** `s.trim()`: `s` without its leading and trailing whitespace. */
  function Trim(s: string): (r: string)
    ensures r != [] ==> !IsSpace(r[0]) && !IsSpace(r[|r| - 1])
  {
    var lo := SkipSpaces(s, 0);
    s[lo..SkipSpacesBack(s, lo, |s|)]
  }

  /** Trimming leaves nothing exactly when the input is blank. */
  lemma TrimEmptyIffBlank(s: string)
    ensures Trim(s) == [] <==> AllSpace(s)
  {
    var lo := SkipSpaces(s, 0);
    var hi := SkipSpacesBack(s, lo, |s|);
    assert |Trim(s)| == hi - lo;
    if hi == lo {
      SkipSpacesBlank(s, 0);
      SkipSpacesBackBlank(s, lo, |s|);
    }
  }

  /** Trimming removes whitespace only: the result is the input with blank runs cut off each end. */
  lemma TrimRemovesOnlyWhitespace(s: string)
    ensures var r := Trim(s);
      exists lo :: 0 <= lo <= |s| - |r| && r == s[lo..lo + |r|] && BlankBetween(s, 0, lo) && BlankBetween(s, lo + |r|, |s|)
  {
    var lo := SkipSpaces(s, 0);
    SkipSpacesBlank(s, 0);
    SkipSpacesBackBlank(s, lo, |s|);
    assert lo + |Trim(s)| == SkipSpacesBack(s, lo, |s|);
  }

  /** A string that starts and ends with non-whitespace is its own trim. */
  lemma TrimUnpadded(s: string)
    requires s != [] && !IsSpace(s[0]) && !IsSpace(s[|s| - 1])
    ensures Trim(s) == s
  {
    assert SkipSpaces(s, 0) == 0;
    assert SkipSpacesBack(s, 0, |s|) == |s|;
  }

  lemma {:induction false} SkipSpacesShift(c: char, s: string, i: nat)
    requires i <= |s|
    ensures SkipSpaces([c] + s, i + 1) == SkipSpaces(s, i) + 1
    decreases |s| - i
  {
    assert ([c] + s)[i + 1..] == s[i..];
    if i < |s| && IsSpace(s[i]) {
      SkipSpacesShift(c, s, i + 1);
    }
  }

  lemma {:induction false} SkipSpacesBackShift(c: char, s: string, lo: nat, j: nat)
    requires lo <= j <= |s|
    ensures SkipSpacesBack([c] + s, lo + 1, j + 1) == SkipSpacesBack(s, lo, j) + 1
    decreases j
  {
    if lo < j {
      assert ([c] + s)[j] == s[j - 1];
      if IsSpace(s[j - 1]) {
        SkipSpacesBackShift(c, s, lo, j - 1);
      }
    }
  }

  /** After a leading whitespace character, both skips land one position further on. */
  lemma SkipsShift(c: char, s: string)
    requires IsSpace(c)
    ensures SkipSpaces([c] + s, 0) == SkipSpaces(s, 0) + 1
    ensures SkipSpacesBack([c] + s, SkipSpaces(s, 0) + 1, |s| + 1) == SkipSpacesBack(s, SkipSpaces(s, 0), |s|) + 1
  {
    SkipSpacesShift(c, s, 0);
    SkipSpacesBackShift(c, s, SkipSpaces(s, 0), |s|);
  }

  /** One leading whitespace character is stripped. */
  lemma TrimLeadingSpace(c: char, s: string)
    requires IsSpace(c)
    ensures Trim([c] + s) == Trim(s)
  {
    SkipsShift(c, s);
    var lo := SkipSpaces(s, 0);
    var hi := SkipSpacesBack(s, lo, |s|);
    assert ([c] + s)[lo + 1..hi + 1] == s[lo..hi];
  }

  lemma TrimIdempotent(s: string)
    ensures Trim(Trim(s)) == Trim(s)
  {
    var r := Trim(s);
    if r != [] {
      TrimUnpadded(r);
    }
  }

  lemma {:induction false} SkipSpacesLower(s: string, i: nat)
    requires i <= |s|
    ensures SkipSpaces(Lower(s), i) == SkipSpaces(s, i)
    decreases |s| - i
  {
    if i < |s| {
      LowerCharSpace(s[i]);
      if IsSpace(s[i]) {
        SkipSpacesLower(s, i + 1);
      }
    }
  }

  lemma {:induction false} SkipSpacesBackLower(s: string, lo: nat, j: nat)
    requires lo <= j <= |s|
    ensures SkipSpacesBack(Lower(s), lo, j) == SkipSpacesBack(s, lo, j)
    decreases j
  {
    if lo < j {
      LowerCharSpace(s[j - 1]);
      if IsSpace(s[j - 1]) {
        SkipSpacesBackLower(s, lo, j - 1);
      }
    }
  }

  /** Lower-casing moves neither skip. */
  lemma SkipsLower(s: string)
    ensures SkipSpaces(Lower(s), 0) == SkipSpaces(s, 0)
    ensures SkipSpacesBack(Lower(s), SkipSpaces(s, 0), |s|) == SkipSpacesBack(s, SkipSpaces(s, 0), |s|)
  {
    SkipSpacesLower(s, 0);
    SkipSpacesBackLower(s, SkipSpaces(s, 0), |s|);
  }

  /** Lower-casing and trimming commute, because lower-casing maps whitespace to whitespace only. */
  lemma TrimLower(s: string)
    ensures Trim(Lower(s)) == Lower(Trim(s))
  {
    SkipsLower(s);
    var lo := SkipSpaces(s, 0);
    var hi := SkipSpacesBack(s, lo, |s|);
    assert Lower(s)[lo..hi] == Lower(s[lo..hi]);
  }

  // ---------------------------------------------------------------------------
  // split / join on a one-character separator
  // ---------------------------------------------------------------------------

  /** `parts.join(sep)`. */
  function Join(parts: seq<string>, sep: char): (s: string)
    requires |parts| >= 1
    decreases |parts|
  {
    if |parts| == 1 then parts[0] else parts[0] + [sep] + Join(parts[1..], sep)
  }

  /**
   * `s.split(sep)`: never empty (`"".split(",")` is `[""]`), no part holds the separator,
   * and there is a single part exactly when `sep` is absent.
   */
  function Split(s: string, sep: char): (parts: seq<string>)
    ensures |parts| >= 1
    ensures forall i :: 0 <= i < |parts| ==> sep !in parts[i]
    ensures |parts| == 1 <==> sep !in s
    decreases |s|
  {
    if s == [] then [[]]
    else
      var rest := Split(s[1..], sep);
      if s[0] == sep then [[]] + rest
      else [[s[0]] + rest[0]] + rest[1..]
  }

  /** Joining the parts back with the separator gives the original string. */
  lemma {:induction false} JoinSplit(s: string, sep: char)
    ensures Join(Split(s, sep), sep) == s
    decreases |s|
  {
    if s != [] {
      var rest := Split(s[1..], sep);
      assert Join(rest, sep) == s[1..] by {
        JoinSplit(s[1..], sep);
      }
      if s[0] == sep {
        assert Split(s, sep) == [[]] + rest;
        assert Join([[]] + rest, sep) == [sep] + Join(rest, sep) by {
          assert ([[]] + rest)[1..] == rest;
        }
        assert s == [sep] + s[1..];
      } else {
        var parts := [[s[0]] + rest[0]] + rest[1..];
        assert Split(s, sep) == parts;
        assert Join(parts, sep) == [s[0]] + Join(rest, sep) by {
          assert parts[1..] == rest[1..];
          assert [rest[0]] + rest[1..] == rest;
        }
        assert s == [s[0]] + s[1..];
      }
    }
  }

  lemma {:induction false} SplitNoSeparator(a: string, sep: char)
    requires sep !in a
    ensures Split(a, sep) == [a]
  {
    JoinSplit(a, sep);
  }

  /** Splitting at the first separator: the first part is what precedes it. */
  lemma {:induction false} SplitAfterFirst(a: string, b: string, sep: char)
    requires sep !in a
    ensures Split(a + [sep] + b, sep) == [a] + Split(b, sep)
    decreases |a|
  {
    if a == [] {
      assert a + [sep] + b == [sep] + b;
      assert ([sep] + b)[1..] == b;
    } else {
      var s := a + [sep] + b;
      assert s[0] == a[0] && a[0] != sep;
      assert s[1..] == a[1..] + [sep] + b;
      var rest := Split(s[1..], sep);
      assert rest == [a[1..]] + Split(b, sep) by {
        SplitAfterFirst(a[1..], b, sep);
      }
      assert Split(s, sep) == [[a[0]] + rest[0]] + rest[1..];
      assert [a[0]] + a[1..] == a;
    }
  }

  /** Split undoes Join when no part holds the separator. */
  lemma {:induction false} SplitJoin(parts: seq<string>, sep: char)
    requires |parts| >= 1
    requires forall i :: 0 <= i < |parts| ==> sep !in parts[i]
    ensures Split(Join(parts, sep), sep) == parts
    decreases |parts|
  {
    if |parts| == 1 {
      SplitNoSeparator(parts[0], sep);
    } else {
      SplitJoin(parts[1..], sep);
      SplitAfterFirst(parts[0], Join(parts[1..], sep), sep);
      assert [parts[0]] + parts[1..] == parts;
    }
  }

  /** `parts.map(p => p.toLowerCase())`. */
  function LowerAll(parts: seq<string>): (r: seq<string>)
    ensures |r| == |parts|
    ensures forall i :: 0 <= i < |parts| ==> r[i] == Lower(parts[i])
  {
    seq(|parts|, i requires 0 <= i < |parts| => Lower(parts[i]))
  }

  lemma LowerAllCons(a: string, t: seq<string>)
    ensures LowerAll([a] + t) == [Lower(a)] + LowerAll(t)
  {
  }

  /** Lower-casing a string lower-cases its parts, as long as the separator is not an ASCII letter. */
  lemma {:induction false} SplitLower(s: string, sep: char)
    requires !('A' <= sep <= 'Z') && !('a' <= sep <= 'z')
    ensures Split(Lower(s), sep) == LowerAll(Split(s, sep))
    decreases |s|
  {
    if s != [] {
      SplitLower(s[1..], sep);
      SplitLowerStep(s, sep);
    }
  }

  lemma SplitLowerStep(s: string, sep: char)
    requires s != []
    requires !('A' <= sep <= 'Z') && !('a' <= sep <= 'z')
    requires Split(Lower(s[1..]), sep) == LowerAll(Split(s[1..], sep))
    ensures Split(Lower(s), sep) == LowerAll(Split(s, sep))
  {
    assert Lower(s)[1..] == Lower(s[1..]);
    if s[0] != sep {
      SplitLowerPartStep(s, sep);
    } else {
      SplitLowerSeparatorStep(s, sep);
    }
  }

  /** A leading character other than the separator joins the first part, lower-cased. */
  lemma SplitLowerPartStep(s: string, sep: char)
    requires s != [] && s[0] != sep
    requires !('A' <= sep <= 'Z') && !('a' <= sep <= 'z')
    requires Lower(s)[1..] == Lower(s[1..])
    requires Split(Lower(s[1..]), sep) == LowerAll(Split(s[1..], sep))
    ensures Split(Lower(s), sep) == LowerAll(Split(s, sep))
  {
    var ls := Lower(s);
    var rest := Split(s[1..], sep);
    var lrest := Split(ls[1..], sep);
    assert ls[0] != sep;
    assert Split(ls, sep) == [[ls[0]] + lrest[0]] + lrest[1..];
    assert Split(s, sep) == [[s[0]] + rest[0]] + rest[1..];
    LowerAppend([s[0]], rest[0]);
    assert Lower([s[0]]) == [ls[0]];
    assert lrest[0] == Lower(rest[0]);
    LowerAllCons([s[0]] + rest[0], rest[1..]);
    assert LowerAll(rest[1..]) == lrest[1..];
  }

  /** A leading separator starts an empty first part on both sides. */
  lemma SplitLowerSeparatorStep(s: string, sep: char)
    requires s != [] && s[0] == sep
    requires !('A' <= sep <= 'Z') && !('a' <= sep <= 'z')
    requires Lower(s)[1..] == Lower(s[1..])
    requires Split(Lower(s[1..]), sep) == LowerAll(Split(s[1..], sep))
    ensures Split(Lower(s), sep) == LowerAll(Split(s, sep))
  {
    assert Lower(s)[0] == sep;
    assert Split(Lower(s), sep) == [[]] + Split(Lower(s)[1..], sep);
    LowerAllCons([], Split(s[1..], sep));
  }

  // ---------------------------------------------------------------------------
  // replace(/x/g, y) for one character x
  // ---------------------------------------------------------------------------

  function ReplaceChar(s: string, from: char, to: char): (r: string)
    ensures |r| == |s|
    ensures forall i :: 0 <= i < |s| ==> r[i] == if s[i] == from then to else s[i]
    decreases |s|
  {
    if s == [] then [] else [if s[0] == from then to else s[0]] + ReplaceChar(s[1..], from, to)
  }
}
