/** Python `str` operations used by the docstring converter, on `seq<char>`. */
module Text {

  type String = seq<char>

  /** Python's `str.isspace()` (and the regex class `\s`) for one character. */
  predicate IsSpace(c: char) {
    || ('\t' <= c <= '\r')
    || ('\U{1C}' <= c <= ' ')
    || c == '\U{85}' || c == '\U{A0}' || c == '\U{1680}'
    || ('\U{2000}' <= c <= '\U{200A}')
    || c == '\U{2028}' || c == '\U{2029}' || c == '\U{202F}' || c == '\U{205F}' || c == '\U{3000}'
  }

  predicate AllSpaces(s: String) {
    forall i :: 0 <= i < |s| ==> IsSpace(s[i])
  }

  /** True of a line that `rstrip()` leaves unchanged. */
  predicate NoTrailingSpace(s: String) {
    s == [] || !IsSpace(s[|s| - 1])
  }

  /** The first index at or after `i` that holds no whitespace, or `|s|`. */
  function SkipSpaces(s: String, i: nat): (j: nat)
    requires i <= |s|
    ensures i <= j <= |s| && (j == |s| || !IsSpace(s[j]))
    ensures forall k {:trigger IsSpace(s[k])} :: i <= k < j ==> IsSpace(s[k])
    decreases |s| - i
  {
    if i < |s| && IsSpace(s[i]) then SkipSpaces(s, i + 1) else i
  }

  /** The index just past the last character before `j` that is no
      whitespace, or 0. */
  function TrimSpaces(s: String, j: nat): (i: nat)
    requires j <= |s|
    ensures i <= j && (i == 0 || !IsSpace(s[i - 1]))
    ensures forall k {:trigger IsSpace(s[k])} :: i <= k < j ==> IsSpace(s[k])
    decreases j
  {
    if j > 0 && IsSpace(s[j - 1]) then TrimSpaces(s, j - 1) else j
  }

  /** `s.lstrip()`: the suffix left after dropping leading whitespace. */
  function LStrip(s: String): (r: String)
    ensures |r| <= |s| && r == s[|s| - |r|..]
    ensures r == [] || !IsSpace(r[0])
    ensures forall k {:trigger IsSpace(s[k])} :: 0 <= k < |s| - |r| ==> IsSpace(s[k])
  {
    s[SkipSpaces(s, 0)..]
  }

  /** `s.rstrip()`: the prefix left after dropping trailing whitespace. */
  function RStrip(s: String): (r: String)
    ensures |r| <= |s| && r == s[..|r|]
    ensures NoTrailingSpace(r)
    ensures forall k {:trigger IsSpace(s[k])} :: |r| <= k < |s| ==> IsSpace(s[k])
  {
    s[..TrimSpaces(s, |s|)]
  }

  /** `s.strip()`. */
  function Strip(s: String): String {
    RStrip(LStrip(s))
  }

  /** `len(s) - len(s.lstrip())`. */
  function Indent(s: String): nat {
    |s| - |LStrip(s)|
  }

  /** `s[k:]`, which is empty when `k` is past the end. */
  function Drop(s: String, k: nat): String {
    if k <= |s| then s[k..] else []
  }

  predicate StartsWith(s: String, p: String) {
    |p| <= |s| && s[..|p|] == p
  }

  predicate EndsWith(s: String, p: String) {
    |p| <= |s| && s[|s| - |p|..] == p
  }

  /** A suffix of a suffix is a suffix, and the character before it is the
      same in both. */
  lemma EndsWithTrans(s: String, t: String, r: String)
    requires EndsWith(s, t) && EndsWith(t, r)
    ensures EndsWith(s, r)
    ensures |r| < |t| ==> s[|s| - |r| - 1] == t[|t| - |r| - 1]
  {
    assert forall j :: 0 <= j < |t| ==> s[|s| - |t| + j] == t[j];
  }

  /** `" " * n`. */
  function Spaces(n: nat): (r: String)
    ensures |r| == n && forall i :: 0 <= i < n ==> r[i] == ' '
  {
    seq(n, _ => ' ')
  }

  /** ASCII part of `str.lower()`. */
  function LowerChar(c: char): char {
    if 'A' <= c <= 'Z' then (c as int + 32) as char else c
  }

  function Lower(s: String): (r: String)
    ensures |r| == |s| && forall i :: 0 <= i < |s| ==> r[i] == LowerChar(s[i])
  {
    seq(|s|, i requires 0 <= i < |s| => LowerChar(s[i]))
  }

  /** `s.replace(pat, rep)`: every non-overlapping occurrence, scanning left to right. */
  function ReplaceAll(s: String, pat: String, rep: String): (r: String)
    requires pat != []
    ensures forall i :: 0 <= i < |r| ==> r[i] in s || r[i] in rep
    decreases |s|
  {
    if |s| < |pat| then s
    else if s[..|pat|] == pat then rep + ReplaceAll(s[|pat|..], pat, rep)
    else [s[0]] + ReplaceAll(s[1..], pat, rep)
  }

  /** Index of the first occurrence of `c` in `s`. */
  function IndexOf(s: String, c: char): (k: nat)
    requires c in s
    ensures k < |s| && s[k] == c && c !in s[..k]
  {
    var k := IndexFrom(s, c, 0);
    assert forall j :: 0 <= j < k ==> s[..k][j] == s[j];
    k
  }

  /** The first index at or after `i` that holds `c`, or `|s|`. */
  function IndexFrom(s: String, c: char, i: nat): (k: nat)
    requires i <= |s|
    ensures i <= k <= |s| && (k < |s| ==> s[k] == c)
    ensures forall j :: i <= j < k ==> s[j] != c
    decreases |s| - i
  {
    if i == |s| || s[i] == c then i else IndexFrom(s, c, i + 1)
  }

  /** `sep.join(parts)` for a one-character separator. */
  function JoinWith(parts: seq<String>, sep: char): String
  {
    if |parts| == 0 then []
    else if |parts| == 1 then parts[0]
    else parts[0] + [sep] + JoinWith(parts[1..], sep)
  }

  /** `needle` occurs in `hay` at index `i`. */
  predicate OccursAt(needle: String, hay: String, i: nat) {
    i + |needle| <= |hay| && hay[i..i + |needle|] == needle
  }

  /** Python's `needle in hay` on strings. */
  predicate Occurs(needle: String, hay: String) {
    exists i: nat :: i <= |hay| && OccursAt(needle, hay, i)
  }

  /** `replace` leaves a string without the pattern unchanged. */
  lemma {:induction false} ReplaceAllAbsent(s: String, pat: String, rep: String)
    requires pat != [] && !Occurs(pat, s)
    ensures ReplaceAll(s, pat, rep) == s
    decreases |s|
  {
    if |s| >= |pat| {
      assert !OccursAt(pat, s, 0);
      OccursTail(pat, s);
      ReplaceAllAbsent(s[1..], pat, rep);
    }
  }

  /** Where the pattern does not start the string, the first character is
      kept and the scan moves on by one. */
  lemma ReplaceAllSkip(s: String, pat: String, rep: String)
    requires pat != [] && s != [] && !StartsWith(s, pat)
    ensures ReplaceAll(s, pat, rep) == [s[0]] + ReplaceAll(s[1..], pat, rep)
  {
    if |s| < |pat| {
      assert ReplaceAll(s[1..], pat, rep) == s[1..];
      assert s == [s[0]] + s[1..];
    }
  }

  /** An occurrence in the tail of a string is one in the string. */
  lemma OccursTail(needle: String, hay: String)
    requires hay != []
    ensures Occurs(needle, hay[1..]) ==> Occurs(needle, hay)
  {
    if Occurs(needle, hay[1..]) {
      var i: nat :| i <= |hay[1..]| && OccursAt(needle, hay[1..], i);
      assert hay[i + 1..i + 1 + |needle|] == hay[1..][i..i + |needle|];
      assert OccursAt(needle, hay, i + 1);
    }
  }

  /** An occurrence at the front is replaced, and the scan goes on after it. */
  lemma ReplaceAllLeading(pat: String, rep: String, b: String)
    requires pat != []
    ensures ReplaceAll(pat + b, pat, rep) == rep + ReplaceAll(b, pat, rep)
  {
    var s := pat + b;
    assert s[..|pat|] == pat && s[|pat|..] == b;
  }

  /** `s.split(sep)` for a one-character separator: never empty, and joining
      the pieces back with `sep` gives `s`. */
  function Split(s: String, sep: char): (r: seq<String>)
    ensures |r| >= 1
    ensures forall i :: 0 <= i < |r| ==> sep !in r[i]
    ensures JoinWith(r, sep) == s
    decreases |s|
  {
    if sep !in s then [s]
    else
      var k := IndexOf(s, sep);
      var rest := Split(s[k + 1..], sep);
      assert s == s[..k] + [sep] + s[k + 1..];
      [s[..k]] + rest
  }

  lemma {:induction false} SplitAfterFirst(a: String, sep: char, b: String)
    requires sep !in a
    ensures Split(a + [sep] + b, sep) == [a] + Split(b, sep)
  {
    var s := a + [sep] + b;
    assert s[|a|] == sep;
    var k := IndexOf(s, sep);
    assert s[..k] == a && s[k + 1..] == b;
  }

  /** Splitting undoes joining when no piece holds the separator. */
  lemma {:induction false} SplitJoin(parts: seq<String>, sep: char)
    requires |parts| >= 1
    requires forall i :: 0 <= i < |parts| ==> sep !in parts[i]
    ensures Split(JoinWith(parts, sep), sep) == parts
    decreases |parts|
  {
    if |parts| > 1 {
      SplitAfterFirst(parts[0], sep, JoinWith(parts[1..], sep));
      SplitJoin(parts[1..], sep);
    }
  }

  /** A line boundary of Python's `str.splitlines()`. */
  predicate IsLineBreak(c: char) {
    || c == '\n' || c == '\r' || c == '\U{0B}' || c == '\U{0C}'
    || ('\U{1C}' <= c <= '\U{1E}')
    || c == '\U{85}' || c == '\U{2028}' || c == '\U{2029}'
  }

  predicate NoLineBreak(s: String) {
    forall j :: 0 <= j < |s| ==> !IsLineBreak(s[j])
  }

  /** Index of the first line boundary in `s`, or `|s|`. */
  function BreakIndex(s: String): (k: nat)
    ensures k <= |s| && NoLineBreak(s[..k])
    ensures k < |s| ==> IsLineBreak(s[k])
  {
    if s == [] || IsLineBreak(s[0]) then 0
    else
      var k := BreakIndex(s[1..]);
      assert s[..k + 1] == [s[0]] + s[1..][..k];
      k + 1
  }

  /** `s.splitlines()`: "\r\n" is one boundary and a final boundary opens no empty line. */
  function SplitLines(s: String): (r: seq<String>)
    ensures forall i :: 0 <= i < |r| ==> NoLineBreak(r[i])
    decreases |s|
  {
    if s == [] then []
    else
      var k := BreakIndex(s);
      if k == |s| then [s]
      else
        var skip := if s[k] == '\r' && k + 1 < |s| && s[k + 1] == '\n' then 2 else 1;
        [s[..k]] + SplitLines(s[k + skip..])
  }

  /** A line without boundaries is one line. */
  lemma SplitLinesOne(a: String)
    requires a != [] && NoLineBreak(a)
    ensures SplitLines(a) == [a]
  {
    var k := BreakIndex(a);
    assert k == |a|;
  }

  /** The first boundary ends the first line: a "\r\n" pair counts as one
      boundary, every other boundary character as one on its own. */
  lemma SplitLinesBreak(a: String, c: char, b: String)
    requires NoLineBreak(a) && IsLineBreak(c)
    requires c != '\r' || b == [] || b[0] != '\n'
    ensures SplitLines(a + [c] + b) == [a] + SplitLines(b)
  {
    var s := a + [c] + b;
    assert s[|a|] == c;
    var k := BreakIndex(s);
    assert k == |a| by {
      assert forall j :: 0 <= j < |a| ==> s[j] == a[j];
      assert forall j :: 0 <= j < k ==> s[..k][j] == s[j];
    }
    assert s[..k] == a && s[k + 1..] == b;
  }

  lemma SplitLinesCRLF(a: String, b: String)
    requires NoLineBreak(a)
    ensures SplitLines(a + "\r\n" + b) == [a] + SplitLines(b)
  {
    var s := a + "\r\n" + b;
    assert s[|a|] == '\r' && s[|a| + 1] == '\n';
    var k := BreakIndex(s);
    assert k == |a| by {
      assert forall j :: 0 <= j < |a| ==> s[j] == a[j];
      assert forall j :: 0 <= j < k ==> s[..k][j] == s[j];
    }
    assert s[..k] == a && s[k + 2..] == b;
  }

  /** `"".join(parts)`. */
  function Concat(parts: seq<String>): String {
    if parts == [] then [] else parts[0] + Concat(parts[1..])
  }

  /** `[p.rstrip() for p in parts]`. */
  function RStripAll(parts: seq<String>): (r: seq<String>)
    ensures |r| == |parts|
    ensures forall i :: 0 <= i < |r| ==> r[i] == RStrip(parts[i])
  {
    seq(|parts|, i requires 0 <= i < |parts| => RStrip(parts[i]))
  }

  /** `"".join(a + b)` is `"".join(a) + "".join(b)`. */
  lemma {:induction false} ConcatAppend(a: seq<String>, b: seq<String>)
    ensures Concat(a + b) == Concat(a) + Concat(b)
    decreases |a|
  {
    if a != [] {
      assert (a + b)[1..] == a[1..] + b;
      ConcatAppend(a[1..], b);
    } else {
      assert a + b == b;
    }
  }

  /** A line strips to nothing exactly when it is all whitespace. */
  lemma StripEmpty(s: String)
    ensures Strip(s) == [] <==> AllSpaces(s)
  {
    var l := LStrip(s);
    if Strip(s) == [] {
      assert l == [];
      assert forall k :: 0 <= k < |s| - |l| ==> IsSpace(s[k]);
    } else {
      assert l != [];
      assert !IsSpace(l[0]) && s[|s| - |l|] == l[0];
    }
  }

  /** Text after a visible line keeps it visible. */
  lemma VisibleAppend(s: String, t: String)
    requires Strip(s) != []
    ensures Strip(s + t) != []
  {
    StripEmpty(s);
    StripEmpty(s + t);
    assert forall k :: 0 <= k < |s| ==> (s + t)[k] == s[k];
  }

  /** The indentation is the run of leading whitespace. */
  lemma IndentLeading(s: String)
    ensures Indent(s) <= |s| && AllSpaces(s[..Indent(s)])
    ensures Indent(s) < |s| ==> !IsSpace(s[Indent(s)])
  {
    var l := LStrip(s);
    assert forall k :: 0 <= k < Indent(s) ==> s[..Indent(s)][k] == s[k];
    if l != [] {
      assert s[Indent(s)] == l[0];
    }
  }

  /** Stripping on the left twice is stripping once. */
  lemma LStripTwice(s: String)
    ensures LStrip(LStrip(s)) == LStrip(s)
  {
  }

  /** A string of whitespace strips to nothing. */
  lemma BlankStrip(s: String)
    requires AllSpaces(s)
    ensures LStrip(s) == [] && Strip(s) == []
  {
  }

  /** A suffix of a blank string is blank. */
  lemma SuffixSpaces(s: String, t: String)
    requires AllSpaces(s) && EndsWith(s, t)
    ensures AllSpaces(t)
  {
    assert forall i :: 0 <= i < |t| ==> t[i] == s[|s| - |t| + i];
  }

  /** A string that starts with a visible character is its own `lstrip`. */
  lemma VisibleLead(s: String)
    requires s != [] && !IsSpace(s[0])
    ensures LStrip(s) == s
  {
  }

  /** A string that starts and ends with visible characters is its own strip. */
  lemma StripVisible(s: String)
    requires s != [] && !IsSpace(s[0]) && !IsSpace(s[|s| - 1])
    ensures Strip(s) == s
  {
    assert LStrip(s) == s;
  }

  /** Replacing every occurrence in a string that starts with the pattern
      gives a string that starts with the replacement. */
  lemma ReplaceAllPrefix(s: String, pat: String, rep: String)
    requires pat != [] && StartsWith(s, pat)
    ensures StartsWith(ReplaceAll(s, pat, rep), rep)
  {
    var rest := ReplaceAll(s[|pat|..], pat, rep);
    assert ReplaceAll(s, pat, rep) == rep + rest;
    assert (rep + rest)[..|rep|] == rep;
  }

  /** A string that starts with a visible character keeps it first once stripped. */
  lemma StripFirst(s: String)
    requires s != [] && !IsSpace(s[0])
    ensures Strip(s) != [] && Strip(s)[0] == s[0]
  {
    assert LStrip(s) == s;
  }

  /** A string that starts with `p` starts with `p`'s first character. */
  lemma StartsWithFirst(s: String, p: String)
    requires p != [] && StartsWith(s, p)
    ensures s != [] && s[0] == p[0]
  {
    assert s[..|p|][0] == s[0];
  }

  /** A string with a visible character strips to a string that starts with
      the same character, and stripping on the left first changes nothing. */
  lemma LeadOf(s: String)
    requires LStrip(s) != []
    ensures Strip(s) != [] && Strip(s)[0] == LStrip(s)[0] && Strip(LStrip(s)) == Strip(s)
  {
    LStripTwice(s);
    StripFirst(LStrip(s));
  }

  /** A string that strips to something visible is visible once stripped on
      the left, with the same first character. */
  lemma StripLead(s: String)
    requires Strip(s) != []
    ensures LStrip(s) != [] && Strip(s)[0] == LStrip(s)[0] && Strip(LStrip(s)) == Strip(s)
  {
    assert |Strip(s)| <= |LStrip(s)|;
    LeadOf(s);
  }

  /** Prefixes that differ in their first character exclude each other. */
  lemma StartsDiffer(s: String, p: String, q: String)
    requires StartsWith(s, p) && p != [] && q != [] && p[0] != q[0]
    ensures !StartsWith(s, q)
  {
    assert s[..|p|][0] == s[0];
    if |q| <= |s| {
      assert s[..|q|][0] == s[0];
    }
  }
}
