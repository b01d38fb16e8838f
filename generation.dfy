/** The small string helpers the generator uses around the converter:
    anchors for headers, the module and object ignore tests, the docstring
    summary and the ordering of members by source line. */
module Generation {
  import opened Text

  // ---------------------------------------------------------------------------
  // Anchor tags
  // ---------------------------------------------------------------------------

  /** The class `[a-zA-Z0-9-_]` of characters an anchor may keep. */
  predicate IsSlugChar(c: char) {
    ('a' <= c <= 'z') || ('A' <= c <= 'Z') || ('0' <= c <= '9') || c == '-' || c == '_'
  }

  /** The characters an anchor ends up with: `[a-z0-9_-]`. */
  predicate IsAnchorChar(c: char) {
    ('a' <= c <= 'z') || ('0' <= c <= '9') || c == '-' || c == '_'
  }

  predicate IsAnchor(s: String) {
    forall i :: 0 <= i < |s| ==> IsAnchorChar(s[i])
  }

  /** `re.compile(r"\s").sub("-", s)`: every whitespace character becomes a hyphen. */
  function Hyphenate(s: String): (r: String)
    ensures |r| == |s|
    ensures forall i :: 0 <= i < |s| ==> r[i] == if IsSpace(s[i]) then '-' else s[i]
  {
    seq(|s|, i requires 0 <= i < |s| => if IsSpace(s[i]) then '-' else s[i])
  }

  /** `re.compile(r"[^a-zA-Z0-9-_]").sub("", s)`: the characters of the class,
      in order. */
  function KeepSlugChars(s: String): (r: String)
    ensures |r| <= |s|
    ensures forall i :: 0 <= i < |r| ==> IsSlugChar(r[i])
    ensures NoUpper(s) ==> NoUpper(r)
  {
    if s == [] then []
    else (if IsSlugChar(s[0]) then [s[0]] else []) + KeepSlugChars(s[1..])
  }

  /** `s` holds no upper-case ASCII letter. */
  predicate NoUpper(s: String) {
    forall i :: 0 <= i < |s| ==> !('A' <= s[i] <= 'Z')
  }

  /** `_get_anchor_tag(header)`. */
  function AnchorTag(header: String): (r: String)
    ensures IsAnchor(r)
    ensures |r| <= |header|
  {
    var lowered := Lower(Strip(header));
    assert NoUpper(Hyphenate(lowered));
    KeepSlugChars(Hyphenate(lowered))
  }

  /** A string the filter keeps whole. */
  lemma {:induction false} KeepSlugCharsWhole(s: String)
    requires forall i :: 0 <= i < |s| ==> IsSlugChar(s[i])
    ensures KeepSlugChars(s) == s
    decreases |s|
  {
    if s != [] {
      KeepSlugCharsWhole(s[1..]);
      assert s == [s[0]] + s[1..];
    }
  }

  /** The filter works character by character: filtering a concatenation
      filters each part. */
  lemma {:induction false} KeepSlugCharsAppend(a: String, b: String)
    ensures KeepSlugChars(a + b) == KeepSlugChars(a) + KeepSlugChars(b)
    decreases |a|
  {
    if a == [] {
      assert a + b == b;
    } else {
      assert (a + b)[0] == a[0] && (a + b)[1..] == a[1..] + b;
      KeepSlugCharsAppend(a[1..], b);
    }
  }

  /** A character outside the class is removed and nothing else changes. */
  lemma KeepSlugCharsDrops(a: String, c: char, b: String)
    requires !IsSlugChar(c)
    ensures KeepSlugChars(a + [c] + b) == KeepSlugChars(a + b)
  {
    KeepSlugCharsAppend(a + [c], b);
    KeepSlugCharsAppend(a, [c]);
    KeepSlugCharsAppend(a, b);
    assert KeepSlugChars([c]) == [];
    assert KeepSlugChars(a) + [] == KeepSlugChars(a);
  }

  /** An anchor is its own anchor: it holds no whitespace and no upper-case
      letter, and every character is one the filter keeps. */
  lemma AnchorTagFixed(s: String)
    requires IsAnchor(s)
    ensures AnchorTag(s) == s
  {
    if s != [] {
      StripVisible(s);
    } else {
      assert Strip(s) == [];
    }
    assert Lower(s) == s;
    assert Hyphenate(s) == s;
    KeepSlugCharsWhole(s);
  }

  /** `_get_anchor_tag` is idempotent. */
  lemma AnchorTagIdempotent(header: String)
    ensures AnchorTag(AnchorTag(header)) == AnchorTag(header)
  {
    AnchorTagFixed(AnchorTag(header));
  }

  /** Lower-casing and hyphenating two anchor words around a whitespace
      character leaves the words and turns the whitespace into a hyphen. */
  lemma HyphenateJoin(a: String, c: char, b: String)
    requires IsAnchor(a) && IsAnchor(b) && IsSpace(c)
    ensures Hyphenate(Lower(a + [c] + b)) == a + "-" + b
  {
    var s := a + [c] + b;
    var h := Hyphenate(Lower(s));
    assert forall i :: 0 <= i < |a| ==> h[i] == a[i];
    assert h[|a|] == '-';
    assert forall i :: 0 <= i < |b| ==> h[|a| + 1 + i] == b[i];
  }

  /** Whitespace between two anchor words becomes a single hyphen. */
  lemma AnchorTagJoins(a: String, c: char, b: String)
    requires a != [] && b != [] && IsAnchor(a) && IsAnchor(b) && IsSpace(c)
    ensures AnchorTag(a + [c] + b) == a + "-" + b
  {
    var s := a + [c] + b;
    AnchorCharVisible(a[0]);
    AnchorCharVisible(b[|b| - 1]);
    assert s[0] == a[0] && s[|s| - 1] == b[|b| - 1];
    StripVisible(s);
    HyphenateJoin(a, c, b);
    AnchorJoin(a, b);
    AnchorKept(a + "-" + b);
  }

  /** Punctuation between two anchor words disappears: the words are
      joined directly. */
  lemma AnchorTagDropsPunctuation(a: String, c: char, b: String)
    requires a != [] && b != [] && IsAnchor(a) && IsAnchor(b)
    requires !IsSlugChar(c) && !IsSpace(c)
    ensures AnchorTag(a + [c] + b) == a + b
  {
    var s := a + [c] + b;
    AnchorCharVisible(a[0]);
    AnchorCharVisible(b[|b| - 1]);
    assert s[0] == a[0] && s[|s| - 1] == b[|b| - 1];
    StripVisible(s);
    LowerKeepsWords(a, c, b);
    KeepSlugCharsDrops(a, c, b);
    AnchorKept(a + b);
  }

  /** Lower-casing and hyphenating leave two anchor words and a character
      that is neither a letter nor whitespace as they are. */
  lemma LowerKeepsWords(a: String, c: char, b: String)
    requires IsAnchor(a) && IsAnchor(b) && !IsSlugChar(c) && !IsSpace(c)
    ensures Hyphenate(Lower(a + [c] + b)) == a + [c] + b
    ensures IsAnchor(a + b)
  {
    var s := a + [c] + b;
    var h := Hyphenate(Lower(s));
    assert forall i :: 0 <= i < |a| ==> s[i] == a[i] && h[i] == a[i];
    assert h[|a|] == c;
    assert forall i :: |a| < i < |s| ==> s[i] == b[i - |a| - 1] && h[i] == s[i];
    assert forall i :: |a| <= i < |a + b| ==> (a + b)[i] == b[i - |a|];
  }

  lemma AnchorCharVisible(c: char)
    ensures IsAnchorChar(c) ==> !IsSpace(c)
  {
  }

  /** Two anchors joined by a hyphen make an anchor. */
  lemma AnchorJoin(a: String, b: String)
    requires IsAnchor(a) && IsAnchor(b)
    ensures IsAnchor(a + "-" + b)
  {
    var j := a + "-" + b;
    assert forall i :: 0 <= i < |a| ==> j[i] == a[i];
    assert forall i :: |a| < i < |j| ==> j[i] == b[i - |a| - 1];
  }

  /** The filter keeps an anchor whole. */
  lemma AnchorKept(s: String)
    requires IsAnchor(s)
    ensures KeepSlugChars(s) == s
  {
    KeepSlugCharsWhole(s);
  }

  // ---------------------------------------------------------------------------
  // Ignored modules and objects
  // ---------------------------------------------------------------------------

  /** The last dot-separated component of `name` starts with an underscore. */
  predicate IsPrivate(name: String) {
    StartsWith(LastPiece(name, '.'), "_")
  }

  /** The piece after the last `sep` in `s`, or all of `s` when it has none:
      the last element of `s.split(sep)`. */
  function LastPiece(s: String, sep: char): (r: String)
    ensures sep !in r && EndsWith(s, r)
    ensures |r| == |s| || s[|s| - |r| - 1] == sep
    decreases |s|
  {
    if sep !in s then s
    else
      var k := IndexOf(s, sep);
      var t := s[k + 1..];
      var r := LastPiece(t, sep);
      assert EndsWith(s, t);
      EndsWithTrans(s, t, r);
      r
  }

  /** `name` is `ignored` or one of its submodules. */
  predicate Covers(ignored: String, name: String) {
    name == ignored || StartsWith(name, ignored + ".")
  }

  /** When `_is_module_ignored(name, ignoredModules)` holds. */
  predicate ModuleIgnored(name: String, ignoredModules: seq<String>) {
    IsPrivate(name) || exists j :: 0 <= j < |ignoredModules| && Covers(ignoredModules[j], name)
  }

  /** `_is_module_ignored`: the private-name test, then the ignore list in
      order, returning at the first entry that covers the name. */
  method IsModuleIgnored(moduleName: String, ignoredModules: seq<String>) returns (r: bool)
    ensures r == ModuleIgnored(moduleName, ignoredModules)
  {
    if StartsWith(LastPiece(moduleName, '.'), "_") {
      return true;
    }
    for k := 0 to |ignoredModules|
      invariant forall j :: 0 <= j < k ==> !Covers(ignoredModules[j], moduleName)
    {
      var ignoredModule := ignoredModules[k];
      if moduleName == ignoredModule {
        return true;
      }
      if StartsWith(moduleName, ignoredModule + ".") {
        return true;
      }
    }
    return false;
  }

  /** A leading piece without the separator does not change the last piece. */
  lemma LastPieceAfter(a: String, sep: char, c: String)
    requires sep !in a
    ensures LastPiece(a + [sep] + c, sep) == LastPiece(c, sep)
  {
    var s := a + [sep] + c;
    assert s[|a|] == sep;
    assert forall j :: 0 <= j < |a| ==> s[j] == a[j];
    assert s[..|a| + 1][|a|] == sep;
    assert IndexOf(s, sep) == |a|;
    assert s[|a| + 1..] == c;
  }

  /** The last piece is what follows the last separator. */
  lemma {:induction false} LastPieceIsTail(a: String, sep: char, b: String)
    requires sep !in b
    ensures LastPiece(a + [sep] + b, sep) == b
    decreases |a|
  {
    if sep !in a {
      LastPieceAfter(a, sep, b);
    } else {
      var k := IndexOf(a, sep);
      var a1, a2 := a[..k], a[k + 1..];
      assert a == a1 + [sep] + a2;
      assert a + [sep] + b == a1 + [sep] + (a2 + [sep] + b);
      LastPieceAfter(a1, sep, a2 + [sep] + b);
      LastPieceIsTail(a2, sep, b);
    }
  }

  /** A module inside an ignored module is ignored too. */
  lemma SubmoduleIgnored(name: String, child: String, ignoredModules: seq<String>, j: nat)
    requires j < |ignoredModules| && Covers(ignoredModules[j], name)
    ensures ModuleIgnored(name + "." + child, ignoredModules)
  {
    var p := ignoredModules[j];
    var sub := name + "." + child;
    assert StartsWith(sub, p + ".") by {
      if name == p {
        assert sub[..|p| + 1] == p + ".";
      } else {
        assert sub[..|p| + 1] == name[..|p| + 1];
      }
    }
    assert Covers(ignoredModules[j], sub);
  }

  /** A module whose own name starts with an underscore is ignored, whatever
      its package and whatever the list. */
  lemma PrivateModuleIgnored(package: String, child: String, ignoredModules: seq<String>)
    requires '.' !in child && StartsWith(child, "_")
    ensures ModuleIgnored(package + "." + child, ignoredModules)
  {
    LastPieceIsTail(package, '.', child);
    assert package + "." + child == package + ['.'] + child;
  }

  /** Only a dot ends an ignored prefix: "pkg.sub" covers neither "pkg.subway"
      nor "pkg". */
  lemma CoversAtDot(ignored: String, name: String)
    requires Covers(ignored, name)
    ensures |name| >= |ignored| && name[..|ignored|] == ignored
    ensures |name| == |ignored| || name[|ignored|] == '.'
  {
    if name != ignored {
      assert name[..|ignored| + 1][..|ignored|] == name[..|ignored|];
      assert name[..|ignored| + 1][|ignored|] == name[|ignored|];
    }
  }

  /** `_IGNORE_GENERATION_INSTRUCTION`. */
  const IgnoreInstruction: String := "lazydocs: ignore"

  /** The result of `.replace(" ", "")`: the string without its spaces. */
  function Unspaced(s: String): (r: String)
    ensures ' ' !in r && |r| <= |s|
  {
    if s == [] then [] else (if s[0] == ' ' then [] else [s[0]]) + Unspaced(s[1..])
  }

  /** `s.replace(" ", "")` deletes every space. */
  lemma {:induction false} ReplaceSpaces(s: String)
    ensures ReplaceAll(s, " ", "") == Unspaced(s)
    decreases |s|
  {
    if s != [] {
      assert s[..1] == [s[0]];
      ReplaceSpaces(s[1..]);
    }
  }

  lemma {:induction false} UnspacedAppend(a: String, b: String)
    ensures Unspaced(a + b) == Unspaced(a) + Unspaced(b)
    decreases |a|
  {
    if a == [] {
      assert a + b == b;
    } else {
      var h: String := if a[0] == ' ' then [] else [a[0]];
      assert (a + b)[0] == a[0] && (a + b)[1..] == a[1..] + b;
      assert Unspaced(a + b) == h + Unspaced(a[1..] + b);
      UnspacedAppend(a[1..], b);
      assert Unspaced(a) == h + Unspaced(a[1..]);
    }
  }

  /** A string without spaces loses nothing. */
  lemma {:induction false} UnspacedNoSpace(s: String)
    requires ' ' !in s
    ensures Unspaced(s) == s
    decreases |s|
  {
    if s != [] {
      assert s[0] != ' ' && ' ' !in s[1..];
      UnspacedNoSpace(s[1..]);
      assert s == [s[0]] + s[1..];
    }
  }

  lemma LowerAppend(a: String, b: String)
    ensures Lower(a + b) == Lower(a) + Lower(b)
  {
    var l, r := Lower(a + b), Lower(a) + Lower(b);
    assert forall i :: 0 <= i < |a| ==> l[i] == r[i];
    assert forall i :: |a| <= i < |l| ==> l[i] == LowerChar(b[i - |a|]) == r[i];
  }

  /** The text the marker is looked for in: no spaces, lower case. */
  function Normalized(s: String): String {
    Lower(ReplaceAll(s, " ", ""))
  }

  /** What occurs in a string occurs in any string around it. */
  lemma OccursInContext(needle: String, hay: String, before: String, after: String)
    requires Occurs(needle, hay)
    ensures Occurs(needle, before + hay + after)
  {
    var i: nat :| i <= |hay| && OccursAt(needle, hay, i);
    var whole := before + hay + after;
    var j := |before| + i;
    assert whole[j..j + |needle|] == hay[i..i + |needle|];
    assert OccursAt(needle, whole, j);
  }

  /** `_IGNORE_GENERATION_INSTRUCTION.replace(" ", "").lower()`, worked out
      by `MarkerNormalized`. */
  const IgnoreMarker: String := "lazydocs:ignore"

  /** The string test of `_is_object_ignored` on the docstring `doc`. */
  predicate ObjectIgnored(doc: String) {
    Occurs(IgnoreMarker, Normalized(doc))
  }

  lemma NormalizedIsUnspaced(s: String)
    ensures Normalized(s) == Lower(Unspaced(s))
  {
    ReplaceSpaces(s);
    assert s[0..] == s;
  }

  /** Two lower-case words without spaces, joined by one space, normalise to
      the two words run together. */
  lemma NormalizedJoin(a: String, b: String)
    requires ' ' !in a && ' ' !in b && Lower(a) == a && Lower(b) == b
    ensures Normalized(a + " " + b) == a + b
  {
    NormalizedIsUnspaced(a + " " + b);
    UnspacedJoin(a, b);
    LowerAppend(a, b);
  }

  /** Deleting the spaces of two space-free words joined by a space runs
      them together. */
  lemma UnspacedJoin(a: String, b: String)
    requires ' ' !in a && ' ' !in b
    ensures Unspaced(a + " " + b) == a + b
  {
    UnspacedAppend(a, " ");
    UnspacedNoSpace(a);
    UnspacedSpace();
    assert Unspaced(a + " ") == a;
    UnspacedAppend(a + " ", b);
    UnspacedNoSpace(b);
  }

  lemma UnspacedSpace()
    ensures Unspaced(" ") == []
  {
    assert " "[1..] == [];
  }

  /** The marker looked for is the instruction without its space. */
  lemma MarkerNormalized()
    ensures Normalized(IgnoreInstruction) == IgnoreMarker
  {
    var first, second := "lazydocs:", "ignore";
    assert IgnoreInstruction == first + " " + second;
    assert IgnoreMarker == first + second;
    assert Lower(first) == first && Lower(second) == second;
    NormalizedJoin(first, second);
  }

  /** A docstring is ignored exactly when, with its spaces deleted and in
      lower case, it contains "lazydocs:ignore". */
  lemma ObjectIgnoredMeans(doc: String)
    ensures ObjectIgnored(doc) <==> Occurs(Normalized(IgnoreInstruction), Lower(Unspaced(doc)))
  {
    MarkerNormalized();
    NormalizedIsUnspaced(doc);
  }

  lemma {:induction false} NormalizedAppend(a: String, b: String)
    ensures Normalized(a + b) == Normalized(a) + Normalized(b)
  {
    NormalizedIsUnspaced(a + b);
    NormalizedIsUnspaced(a);
    NormalizedIsUnspaced(b);
    UnspacedAppend(a, b);
    LowerAppend(Unspaced(a), Unspaced(b));
  }

  /** Text around an ignored docstring does not lift the instruction. */
  lemma ObjectIgnoredInContext(before: String, doc: String, after: String)
    requires ObjectIgnored(doc)
    ensures ObjectIgnored(before + doc + after)
  {
    NormalizedAppend(before + doc, after);
    NormalizedAppend(before, doc);
    OccursInContext(IgnoreMarker, Normalized(doc), Normalized(before), Normalized(after));
  }

  /** Spaces do not matter to the test: a space anywhere in the docstring
      changes nothing. */
  lemma ObjectIgnoredSpaces(a: String, b: String)
    ensures ObjectIgnored(a + " " + b) <==> ObjectIgnored(a + b)
  {
    NormalizedIsUnspaced(a + " " + b);
    NormalizedIsUnspaced(a + b);
    UnspacedDropSpace(a, b);
  }

  /** Deleting spaces after inserting one is deleting them before. */
  lemma UnspacedDropSpace(a: String, b: String)
    ensures Unspaced(a + " " + b) == Unspaced(a + b)
  {
    UnspacedAppend(a, " ");
    UnspacedSpace();
    UnspacedAppend(a + " ", b);
    UnspacedAppend(a, b);
  }

  // ---------------------------------------------------------------------------
  // Docstring summary
  // ---------------------------------------------------------------------------

  /** `_get_doc_summary` on the docstring `doc`: `doc.split("\n")[0]`. */
  function DocSummary(doc: String): (r: String)
    ensures '\n' !in r
    ensures |r| <= |doc| && r == doc[..|r|]
    ensures |r| == |doc| || doc[|r|] == '\n'
  {
    Split(doc, '\n')[0]
  }

  /** The summary of a docstring is its text before the first newline. */
  lemma DocSummaryFirstLine(first: String, rest: String)
    requires '\n' !in first
    ensures DocSummary(first + "\n" + rest) == first
  {
    SplitAfterFirst(first, '\n', rest);
    assert first + "\n" + rest == first + ['\n'] + rest;
  }

  // ---------------------------------------------------------------------------
  // Ordering by source line
  // ---------------------------------------------------------------------------

  /** Position `a` comes before position `b` in a stable sort by `index`:
      a smaller key first, and among equal keys the earlier position. */
  predicate Before(index: seq<int>, a: nat, b: nat)
    requires a < |index| && b < |index|
  {
    index[a] < index[b] || (index[a] == index[b] && a < b)
  }

  /** `p` lists positions of `index` as a stable sort by key would. */
  predicate StableOrder(index: seq<int>, p: seq<nat>) {
    && (forall k :: 0 <= k < |p| ==> p[k] < |index|)
    && (forall k, l :: 0 <= k < l < |p| ==> Before(index, p[k], p[l]))
  }

  /** The positions `0, 1, ..., n-1`: `range(n)`. */
  function Positions(n: nat): (r: seq<nat>)
    ensures |r| == n && forall k :: 0 <= k < n ==> r[k] == k
  {
    seq(n, k requires 0 <= k < n => k)
  }

  /** Where position `i`, later than every position in `p`, goes: after the
      positions whose key is not larger than its own. */
  function InsertPoint(index: seq<int>, i: nat, p: seq<nat>): (q: nat)
    requires i < |index| && forall k :: 0 <= k < |p| ==> p[k] < |index|
    ensures q <= |p|
    ensures forall k :: 0 <= k < q ==> index[p[k]] <= index[i]
    ensures q < |p| ==> index[i] < index[p[q]]
  {
    if p == [] || index[i] < index[p[0]] then 0
    else 1 + InsertPoint(index, i, p[1..])
  }

  /** One step of the insertion sort: position `i`, later than every
      position in `p`, put in its place. */
  function InsertByKey(index: seq<int>, i: nat, p: seq<nat>): (r: seq<nat>)
    requires i < |index| && StableOrder(index, p)
    requires forall k :: 0 <= k < |p| ==> p[k] < i
    ensures StableOrder(index, r)
    ensures multiset(r) == multiset(p) + multiset{i}
    ensures |r| == |p| + 1 && forall k :: 0 <= k < |r| ==> r[k] <= i
    ensures var q := InsertPoint(index, i, p); r == p[..q] + [i] + p[q..]
  {
    var q := InsertPoint(index, i, p);
    InsertStable(index, i, p, q);
    InsertContents(i, p, q);
    p[..q] + [i] + p[q..]
  }

  /** Inserting `i` anywhere adds it to the positions and keeps the bound. */
  lemma InsertContents(i: nat, p: seq<nat>, q: nat)
    requires q <= |p| && forall k :: 0 <= k < |p| ==> p[k] < i
    ensures var r := p[..q] + [i] + p[q..];
      && multiset(r) == multiset(p) + multiset{i}
      && |r| == |p| + 1 && forall k :: 0 <= k < |r| ==> r[k] <= i
  {
    var r := p[..q] + [i] + p[q..];
    assert p == p[..q] + p[q..];
    assert forall k :: 0 <= k < q ==> r[k] == p[k];
    assert forall k :: q < k < |r| ==> r[k] == p[k - 1];
  }

  /** Putting `i` at its insertion point keeps the order stable. */
  lemma InsertStable(index: seq<int>, i: nat, p: seq<nat>, q: nat)
    requires i < |index| && StableOrder(index, p)
    requires forall k :: 0 <= k < |p| ==> p[k] < i
    requires q == InsertPoint(index, i, p)
    ensures StableOrder(index, p[..q] + [i] + p[q..])
  {
    var r := p[..q] + [i] + p[q..];
    assert forall k :: 0 <= k < q ==> r[k] == p[k];
    assert r[q] == i;
    assert forall k :: q < k < |r| ==> r[k] == p[k - 1];
    forall k, l | 0 <= k < l < |r|
      ensures Before(index, r[k], r[l])
    {
      if l == q {
        LeftOfPoint(index, i, p, q, k);
      } else if k == q {
        RightOfPoint(index, i, p, q, l - 1);
      } else {
        var k', l' := if k < q then k else k - 1, if l < q then l else l - 1;
        assert r[k] == p[k'] && r[l] == p[l'];
      }
    }
  }

  /** Every position before the insertion point goes before `i`. */
  lemma LeftOfPoint(index: seq<int>, i: nat, p: seq<nat>, q: nat, k: nat)
    requires i < |index| && forall k :: 0 <= k < |p| ==> p[k] < i
    requires forall k :: 0 <= k < |p| ==> p[k] < |index|
    requires q == InsertPoint(index, i, p) && k < q
    ensures Before(index, p[k], i)
  {
  }

  /** `i` goes before every position from the insertion point on. */
  lemma RightOfPoint(index: seq<int>, i: nat, p: seq<nat>, q: nat, m: nat)
    requires i < |index| && StableOrder(index, p)
    requires q == InsertPoint(index, i, p) && q <= m < |p|
    ensures Before(index, i, p[m])
  {
    if q < m {
      assert Before(index, p[q], p[m]);
    }
  }

  /** The positions `0 .. n-1` of `index` in stable key order: the
      `ordering` of `sorted(range(len(index)), key=index.__getitem__)`
      when `n == |index|`. */
  function SortedPositions(index: seq<int>, n: nat): (r: seq<nat>)
    requires n <= |index|
    ensures StableOrder(index, r)
    ensures multiset(r) == multiset(Positions(n))
    ensures |r| == n && forall k :: 0 <= k < |r| ==> r[k] < n
  {
    if n == 0 then []
    else
      var p := SortedPositions(index, n - 1);
      assert Positions(n) == Positions(n - 1) + [n - 1];
      InsertByKey(index, n - 1, p)
  }

  /** `[objs[i] for i in ordering]`. */
  function Pick<T>(objs: seq<T>, p: seq<nat>): (r: seq<T>)
    requires forall k :: 0 <= k < |p| ==> p[k] < |objs|
    ensures |r| == |p| && forall k :: 0 <= k < |p| ==> r[k] == objs[p[k]]
  {
    seq(|p|, k requires 0 <= k < |p| => objs[p[k]])
  }

  /** `_order_by_index(objs, index)`: `objs` has an entry for every
      position of `index` (the comprehension would fail otherwise). The
      result picks the objects along a stable key order of all positions. */
  function OrderByIndex<T>(objs: seq<T>, index: seq<int>): (r: seq<T>)
    requires |index| <= |objs|
    ensures exists p: seq<nat> :: (StableOrder(index, p) && multiset(p) == multiset(Positions(|index|))
      && |p| == |index| && r == Pick(objs, p))
  {
    var p := SortedPositions(index, |index|);
    assert forall k :: 0 <= k < |p| ==> p[k] < |objs|;
    Pick(objs, p)
  }

  /** Two positions are never each before the other. */
  lemma BeforeAsymmetric(index: seq<int>, a: nat, b: nat)
    requires a < |index| && b < |index|
    ensures Before(index, a, b) ==> !Before(index, b, a)
  {
  }

  /** Dropping the first position of a stable order leaves a stable order. */
  lemma StableTail(index: seq<int>, p: seq<nat>)
    requires StableOrder(index, p) && p != []
    ensures StableOrder(index, p[1..])
  {
    assert forall k :: 0 <= k < |p| - 1 ==> p[1..][k] == p[k + 1];
  }

  /** Two stable orders of the same positions start with the same one. */
  lemma StableHeads(index: seq<int>, p: seq<nat>, q: seq<nat>)
    requires StableOrder(index, p) && StableOrder(index, q)
    requires multiset(p) == multiset(q) && p != []
    ensures q != [] && p[0] == q[0]
  {
    assert p[0] in multiset(q);
    var k :| 0 <= k < |q| && q[k] == p[0];
    assert q[0] in multiset(p);
    var l :| 0 <= l < |p| && p[l] == q[0];
    BeforeAsymmetric(index, p[0], q[0]);
  }

  /** Removing the same first element from equal multisets keeps them equal. */
  lemma TailMultiset(p: seq<nat>, q: seq<nat>)
    requires multiset(p) == multiset(q) && p != [] && q != [] && p[0] == q[0]
    ensures multiset(p[1..]) == multiset(q[1..])
  {
    assert p == [p[0]] + p[1..] && q == [q[0]] + q[1..];
    assert multiset(p[1..]) == multiset(p) - multiset{p[0]};
    assert multiset(q[1..]) == multiset(q) - multiset{q[0]};
  }

  /** There is only one stable order of a collection of positions: the sort
      is determined by the keys alone, whatever algorithm `sorted` runs. */
  lemma {:induction false} StableOrderUnique(index: seq<int>, p: seq<nat>, q: seq<nat>)
    requires StableOrder(index, p) && StableOrder(index, q)
    requires multiset(p) == multiset(q)
    ensures p == q
    decreases |p|
  {
    if p == [] {
      assert |q| == |multiset(q)| == 0;
    } else {
      StableHeads(index, p, q);
      TailMultiset(p, q);
      StableTail(index, p);
      StableTail(index, q);
      StableOrderUnique(index, p[1..], q[1..]);
      assert p == [p[0]] + p[1..] && q == [q[0]] + q[1..];
    }
  }

  lemma PickAppend<T>(objs: seq<T>, a: seq<nat>, b: seq<nat>)
    requires forall k :: 0 <= k < |a| ==> a[k] < |objs|
    requires forall k :: 0 <= k < |b| ==> b[k] < |objs|
    ensures Pick(objs, a + b) == Pick(objs, a) + Pick(objs, b)
  {
  }

  /** The ordered list holds the first `n` objects, each as often as there. */
  lemma {:induction false} SortedPositionsPermute<T>(objs: seq<T>, index: seq<int>, n: nat)
    requires n <= |index| <= |objs|
    ensures multiset(Pick(objs, SortedPositions(index, n))) == multiset(objs[..n])
  {
    if n > 0 {
      var m := n - 1;
      SortedPositionsPermute(objs, index, m);
      var p := SortedPositions(index, m);
      assert multiset(Pick(objs, p)) == multiset(objs[..m]);
      var q := InsertPoint(index, m, p);
      SortedPositionsStep(index, n);
      PickInsertLast(objs, p, q, n);
    }
  }

  /** The order of the first `n` positions is that of the first `n - 1` with
      position `n - 1` put at its insertion point. */
  lemma SortedPositionsStep(index: seq<int>, n: nat)
    requires 0 < n <= |index|
    ensures var p := SortedPositions(index, n - 1);
      var q := InsertPoint(index, n - 1, p);
      SortedPositions(index, n) == p[..q] + [n - 1] + p[q..]
  {
    var p := SortedPositions(index, n - 1);
    assert SortedPositions(index, n) == InsertByKey(index, n - 1, p);
  }

  /** Inserting position `n - 1` into a list that picks the first `n - 1`
      objects gives a list that picks the first `n`. */
  lemma PickInsertLast<T>(objs: seq<T>, p: seq<nat>, q: nat, n: nat)
    requires 0 < n <= |objs| && q <= |p|
    requires forall k :: 0 <= k < |p| ==> p[k] < |objs|
    requires multiset(Pick(objs, p)) == multiset(objs[..n - 1])
    ensures multiset(Pick(objs, p[..q] + [n - 1] + p[q..])) == multiset(objs[..n])
  {
    PickInsert(objs, p[..q], p[q..], n - 1);
    assert p[..q] + p[q..] == p;
    PrefixSnoc(objs, n);
  }

  /** Picking along a list with one more position picks one more object. */
  lemma PickInsert<T>(objs: seq<T>, front: seq<nat>, back: seq<nat>, i: nat)
    requires i < |objs|
    requires forall k :: 0 <= k < |front| ==> front[k] < |objs|
    requires forall k :: 0 <= k < |back| ==> back[k] < |objs|
    ensures multiset(Pick(objs, front + [i] + back)) == multiset(Pick(objs, front + back)) + multiset{objs[i]}
  {
    PickAppend(objs, front + [i], back);
    PickAppend(objs, front, [i]);
    PickAppend(objs, front, back);
    var a, b := Pick(objs, front), Pick(objs, back);
    assert Pick(objs, [i]) == [objs[i]];
    assert multiset(a + [objs[i]] + b) == multiset(a + b) + multiset{objs[i]};
  }

  lemma PrefixSnoc<T>(s: seq<T>, n: nat)
    requires 0 < n <= |s|
    ensures multiset(s[..n]) == multiset(s[..n - 1]) + multiset{s[n - 1]}
  {
    assert s[..n] == s[..n - 1] + [s[n - 1]];
  }

  /** `_order_by_index` rearranges the objects: it neither drops nor repeats one. */
  lemma OrderByIndexPermutes<T>(objs: seq<T>, index: seq<int>)
    requires |index| <= |objs|
    ensures multiset(OrderByIndex(objs, index)) == multiset(objs[..|index|])
  {
    SortedPositionsPermute(objs, index, |index|);
  }

  /** Any stable key order of all positions picks the same list as
      `_order_by_index`. */
  lemma OrderByIndexUnique<T>(objs: seq<T>, index: seq<int>, p: seq<nat>)
    requires |index| <= |objs|
    requires StableOrder(index, p) && multiset(p) == multiset(Positions(|index|))
    ensures |p| == |index| && forall k :: 0 <= k < |p| ==> p[k] < |objs|
    ensures OrderByIndex(objs, index) == Pick(objs, p)
  {
    StableOrderUnique(index, p, SortedPositions(index, |index|));
  }
}
