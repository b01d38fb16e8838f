/** The five regular expressions of the docstring converter, each read on one
    line: the three section-header patterns (`_RE_BLOCKSTART_LIST`,
    `_RE_BLOCKSTART_TEXT`, `_RE_QUOTE_TEXT`) and the two argument-start
    patterns (`_RE_TYPED_ARGSTART`, `_RE_ARGSTART`). */
module DocPatterns {
  import opened Text

  datatype Option<T> = None | Some(value: T)

  // ---------------------------------------------------------------------------
  // Section headers: `(kw1|kw2|...).{0,2}$`, matched at the start, ignoring case
  // ---------------------------------------------------------------------------

  /** Keywords of `_RE_BLOCKSTART_LIST`, lower-cased, in the pattern's order
      (the pattern lists "Kwargs:" twice). */
  const ListKeywords: seq<String> :=
    ["args:", "arg:", "arguments:", "parameters:", "kwargs:", "attributes:",
     "returns:", "yields:", "kwargs:", "raises:"]

  /** Keywords of `_RE_BLOCKSTART_TEXT`. */
  const TextKeywords: seq<String> := ["examples:", "example:", "todo:"]

  /** Keywords of `_RE_QUOTE_TEXT`. */
  const QuoteKeywords: seq<String> := ["notes:", "note:"]

  const AllKeywords: seq<String> := ListKeywords + TextKeywords + QuoteKeywords

  /** `.{0,2}$`: at most two characters other than a newline, then the end of
      the string or a newline that ends it. */
  predicate ShortTail(t: String) {
    || (|t| <= 2 && '\n' !in t)
    || (1 <= |t| <= 3 && t[|t| - 1] == '\n' && '\n' !in t[..|t| - 1])
  }

  /** `line` starts with `kw` up to ASCII case and a short tail follows. */
  predicate KeywordAt(line: String, kw: String) {
    |kw| <= |line| && Lower(line[..|kw|]) == kw && ShortTail(line[|kw|..])
  }

  /** The alternation of `keywords`, tried in order. */
  predicate KeywordLine(line: String, keywords: seq<String>)
    decreases |keywords|
  {
    keywords != [] && (KeywordAt(line, keywords[0]) || KeywordLine(line, keywords[1..]))
  }

  /** The alternation matches exactly when one of its keywords does. */
  lemma {:induction false} KeywordLineSome(line: String, keywords: seq<String>)
    ensures KeywordLine(line, keywords) <==> exists i :: 0 <= i < |keywords| && KeywordAt(line, keywords[i])
    decreases |keywords|
  {
    if keywords != [] {
      var tail := keywords[1..];
      KeywordLineSome(line, tail);
      if exists i :: 0 <= i < |keywords| && KeywordAt(line, keywords[i]) {
        var i :| 0 <= i < |keywords| && KeywordAt(line, keywords[i]);
        if i > 0 {
          assert tail[i - 1] == keywords[i];
        }
      }
      if KeywordLine(line, tail) {
        var j :| 0 <= j < |tail| && KeywordAt(line, tail[j]);
        assert keywords[j + 1] == tail[j];
      }
    }
  }

  predicate IsListHeader(line: String) { KeywordLine(line, ListKeywords) }

  predicate IsTextHeader(line: String) { KeywordLine(line, TextKeywords) }

  predicate IsQuoteHeader(line: String) { KeywordLine(line, QuoteKeywords) }

  predicate IsHeader(line: String) {
    IsListHeader(line) || IsTextHeader(line) || IsQuoteHeader(line)
  }

  predicate IsAsciiLower(c: char) { 'a' <= c <= 'z' }

  /** Every header keyword is lower-case ASCII letters closed by a colon. */
  predicate KeywordForm(kw: String) {
    |kw| >= 2 && kw[|kw| - 1] == ':' && forall j :: 0 <= j < |kw| - 1 ==> IsAsciiLower(kw[j])
  }

  predicate AllKeywordForm(keywords: seq<String>) {
    forall i :: 0 <= i < |keywords| ==> KeywordForm(keywords[i])
  }

  lemma KeywordsWellFormed()
    ensures AllKeywordForm(ListKeywords)
    ensures AllKeywordForm(TextKeywords)
    ensures AllKeywordForm(QuoteKeywords)
    ensures AllKeywordForm(AllKeywords)
  {
    KeywordFormAppend(ListKeywords, TextKeywords);
    KeywordFormAppend(ListKeywords + TextKeywords, QuoteKeywords);
  }

  /** Joining two well-formed keyword lists gives a well-formed list. */
  lemma KeywordFormAppend(a: seq<String>, b: seq<String>)
    requires AllKeywordForm(a) && AllKeywordForm(b)
    ensures AllKeywordForm(a + b)
  {
    assert forall i :: 0 <= i < |b| ==> (a + b)[|a| + i] == b[i];
  }

  lemma {:induction false} KeywordLineHasColon(line: String, keywords: seq<String>)
    requires AllKeywordForm(keywords)
    ensures KeywordLine(line, keywords) ==> ':' in line
  {
    KeywordLineSome(line, keywords);
    if KeywordLine(line, keywords) {
      var i :| 0 <= i < |keywords| && KeywordAt(line, keywords[i]);
      var e := |keywords[i]| - 1;
      assert Lower(line[..|keywords[i]|])[e] == ':';
      assert line[e] == ':';
    }
  }

  /** In a line that a keyword pattern matches, the first colon closes the
      keyword: the text up to it is one of the keywords in some ASCII case,
      and at most two characters follow it. */
  lemma {:induction false} KeywordLineAtColon(line: String, keywords: seq<String>, c: nat)
    requires AllKeywordForm(keywords)
    requires '\n' !in line
    requires c < |line| && line[c] == ':' && ':' !in line[..c]
    ensures KeywordLine(line, keywords) <==> Lower(line[..c + 1]) in keywords && |line| - (c + 1) <= 2
  {
    KeywordLineSome(line, keywords);
    if KeywordLine(line, keywords) {
      var i :| 0 <= i < |keywords| && KeywordAt(line, keywords[i]);
      var kw := keywords[i];
      var e := |kw| - 1;
      assert Lower(line[..|kw|])[e] == ':';
      assert line[e] == ':';
      assert forall j :: 0 <= j < c ==> line[..c][j] == line[j];
      assert forall j :: 0 <= j < e ==> Lower(line[..|kw|])[j] == kw[j] && IsAsciiLower(kw[j]);
      assert e == c;
      assert line[|kw|..] == line[c + 1..];
    }
    if Lower(line[..c + 1]) in keywords && |line| - (c + 1) <= 2 {
      var i :| 0 <= i < |keywords| && keywords[i] == Lower(line[..c + 1]);
      assert KeywordAt(line, keywords[i]);
    }
  }

  /** Every header pattern needs a colon. */
  lemma HeaderHasColon(line: String)
    ensures IsHeader(line) ==> ':' in line
  {
    KeywordsWellFormed();
    KeywordLineHasColon(line, ListKeywords);
    KeywordLineHasColon(line, TextKeywords);
    KeywordLineHasColon(line, QuoteKeywords);
  }

  /** One header pattern matches a line exactly when the text up to the
      line's first colon is one of its keywords in some ASCII case and at
      most two characters follow. */
  lemma HeaderKeyword(line: String, keywords: seq<String>)
    requires AllKeywordForm(keywords)
    requires '\n' !in line && ':' in line
    ensures var c := IndexOf(line, ':');
      KeywordLine(line, keywords) <==> Lower(line[..c + 1]) in keywords && |line| - (c + 1) <= 2
  {
    KeywordLineAtColon(line, keywords, IndexOf(line, ':'));
  }

  /** A line is a section header exactly when the text up to its first colon
      is a header keyword in some ASCII case and at most two characters
      follow. */
  lemma HeaderAtFirstColon(line: String)
    requires '\n' !in line && ':' in line
    ensures var c := IndexOf(line, ':');
      IsHeader(line) <==> Lower(line[..c + 1]) in AllKeywords && |line| - (c + 1) <= 2
  {
    KeywordsWellFormed();
    HeaderKeyword(line, ListKeywords);
    HeaderKeyword(line, TextKeywords);
    HeaderKeyword(line, QuoteKeywords);
  }

  predicate IsAsciiLetter(c: char) { ('a' <= c <= 'z') || ('A' <= c <= 'Z') }

  /** A line a keyword pattern matches starts with the first letter of one
      of its keywords, in some ASCII case. */
  lemma KeywordLead(line: String, keywords: seq<String>) returns (i: nat)
    requires AllKeywordForm(keywords) && KeywordLine(line, keywords)
    ensures i < |keywords| && line != [] && LowerChar(line[0]) == keywords[i][0]
    ensures IsAsciiLower(keywords[i][0])
  {
    KeywordLineSome(line, keywords);
    i :| 0 <= i < |keywords| && KeywordAt(line, keywords[i]);
    var kw := keywords[i];
    assert Lower(line[..|kw|])[0] == kw[0];
  }

  /** In a line a keyword pattern matches, every character before the first
      colon is an ASCII letter. */
  lemma KeywordLetters(line: String, keywords: seq<String>)
    requires AllKeywordForm(keywords) && KeywordLine(line, keywords)
    ensures ':' in line && forall j :: 0 <= j < IndexOf(line, ':') ==> IsAsciiLetter(line[j])
  {
    KeywordLineSome(line, keywords);
    var i :| 0 <= i < |keywords| && KeywordAt(line, keywords[i]);
    var kw := keywords[i];
    var e := |kw| - 1;
    assert forall j :: 0 <= j < |kw| ==> LowerChar(line[j]) == kw[j] by {
      forall j | 0 <= j < |kw|
        ensures LowerChar(line[j]) == kw[j]
      {
        assert Lower(line[..|kw|])[j] == kw[j];
      }
    }
    assert line[e] == ':';
    assert forall j :: 0 <= j < e ==> IsAsciiLetter(line[j]);
  }

  /** Every character before a header's first colon is an ASCII letter. */
  lemma HeaderLetters(line: String)
    ensures IsHeader(line) ==>
      ':' in line && forall j :: 0 <= j < IndexOf(line, ':') ==> IsAsciiLetter(line[j])
  {
    if IsHeader(line) {
      KeywordsWellFormed();
      var keywords := if IsListHeader(line) then ListKeywords
        else if IsTextHeader(line) then TextKeywords else QuoteKeywords;
      KeywordLetters(line, keywords);
    }
  }

  /** A header starts with an ASCII letter, the first letter of its keyword. */
  lemma HeaderStartsWithLetter(line: String)
    requires IsHeader(line)
    ensures line != [] && IsAsciiLetter(line[0])
  {
    KeywordsWellFormed();
    var keywords := if IsListHeader(line) then ListKeywords
      else if IsTextHeader(line) then TextKeywords else QuoteKeywords;
    var i := KeywordLead(line, keywords);
  }

  /** A list header does not start with "n" in either case... */
  lemma ListLead(line: String)
    ensures IsListHeader(line) ==> line != [] && LowerChar(line[0]) != 'n'
  {
    if IsListHeader(line) {
      KeywordsWellFormed();
      var i := KeywordLead(line, ListKeywords);
    }
  }

  /** ...and a note header does. */
  lemma QuoteLead(line: String)
    ensures IsQuoteHeader(line) ==> line != [] && LowerChar(line[0]) == 'n'
  {
    if IsQuoteHeader(line) {
      KeywordsWellFormed();
      var i := KeywordLead(line, QuoteKeywords);
    }
  }

  /** No line opens both an argument list and a quote. */
  lemma ListAndQuoteHeadersExclusive(line: String)
    ensures !(IsListHeader(line) && IsQuoteHeader(line))
  {
    ListLead(line);
    QuoteLead(line);
  }

  // ---------------------------------------------------------------------------
  // Argument starts
  // ---------------------------------------------------------------------------

  /** The class `[\w\[\]_]`, with `\w` read as ASCII letters, digits and `_`. */
  predicate IsNameChar(c: char) {
    ('a' <= c <= 'z') || ('A' <= c <= 'Z') || ('0' <= c <= '9') || c == '_' || c == '[' || c == ']'
  }

  /** The three character classes the argument patterns repeat: `\*`,
      `[\w\[\]_]` and `\s`. */
  datatype CharClass = Stars | NameChars | Blanks

  predicate InClass(k: CharClass, c: char) {
    match k
    case Stars => c == '*'
    case NameChars => IsNameChar(c)
    case Blanks => IsSpace(c)
  }

  predicate AllIn(k: CharClass, s: String) {
    forall j :: 0 <= j < |s| ==> InClass(k, s[j])
  }

  /** Length of the run of class `k` characters from position `i`. */
  function Run(k: CharClass, s: String, i: nat): (n: nat)
    requires i <= |s|
    ensures i + n <= |s|
    decreases |s| - i
  {
    if i < |s| && InClass(k, s[i]) then 1 + Run(k, s, i + 1) else 0
  }

  /** The run holds only class characters and stops at the end or at a
      character outside the class. */
  lemma {:induction false} RunSpec(k: CharClass, s: String, i: nat)
    requires i <= |s|
    ensures AllIn(k, s[i..i + Run(k, s, i)])
    ensures i + Run(k, s, i) < |s| ==> !InClass(k, s[i + Run(k, s, i)])
    decreases |s| - i
  {
    if i < |s| && InClass(k, s[i]) {
      RunSpec(k, s, i + 1);
      var n := Run(k, s, i + 1);
      assert Run(k, s, i) == 1 + n;
      var run := s[i..i + 1 + n];
      assert run == [s[i]] + s[i + 1..i + 1 + n];
      assert forall j :: 1 <= j < |run| ==> run[j] == s[i + 1..i + 1 + n][j - 1];
    }
  }

  /** Conversely, a stretch of class characters that ends where the class
      ends is the run. */
  lemma {:induction false} RunIs(k: CharClass, s: String, i: nat, n: nat)
    requires i + n <= |s|
    requires AllIn(k, s[i..i + n])
    requires i + n < |s| ==> !InClass(k, s[i + n])
    ensures Run(k, s, i) == n
    decreases n
  {
    if n > 0 {
      assert s[i] == s[i..i + n][0];
      assert s[i + 1..i + n] == s[i..i + n][1..];
      RunIs(k, s, i + 1, n - 1);
    }
  }

  /** `RunIs` with the run given as the middle one of three parts. */
  lemma RunAt(k: CharClass, p: String, r: String, t: String)
    requires AllIn(k, r)
    requires t == [] || !InClass(k, t[0])
    ensures Run(k, p + r + t, |p|) == |r|
  {
    var s := p + r + t;
    assert s[|p|..|p| + |r|] == r;
    if t != [] {
      assert s[|p| + |r|] == t[0];
    }
    RunIs(k, s, |p|, |r|);
  }

  /** Two splits of one string with first parts of equal length are the same split. */
  lemma SplitCancel(a: String, b: String, c: String, d: String)
    requires a + b == c + d && |a| == |c|
    ensures a == c && b == d
  {
    assert a == (a + b)[..|a|];
    assert c == (c + d)[..|c|];
    assert b == (a + b)[|a|..];
    assert d == (c + d)[|c|..];
  }

  // ---------------------------------------------------------------------------
  // `_RE_TYPED_ARGSTART` = `([\w\[\]_]{1,}?)\s*?\((.*?)\):(.{2,})`
  // ---------------------------------------------------------------------------

  /** The groups of `_RE_TYPED_ARGSTART`, with the whitespace the pattern
      skips between name and parenthesis as `gap`. */
  datatype TypedArgMatch = TypedArgMatch(name: String, gap: String, typ: String, desc: String)

  /** "):" starts at position `k` of `s`. */
  predicate CloseColonAt(s: String, k: nat) {
    k + 1 < |s| && s[k] == ')' && s[k + 1] == ':'
  }

  /** No "):" inside `s`. */
  predicate NoCloseColon(s: String) {
    forall k: nat :: k < |s| ==> !CloseColonAt(s, k)
  }

  /** `m` is a way of reading `line` with the typed-argument pattern: a
      non-empty name, whitespace, "(", a type that stops at the first "):"
      (the lazy group), "):" and a description of two or more characters. */
  predicate IsTypedArgMatch(line: String, m: TypedArgMatch) {
    && line == m.name + m.gap + "(" + m.typ + "):" + m.desc
    && m.name != [] && AllIn(NameChars, m.name)
    && AllIn(Blanks, m.gap)
    && NoCloseColon(m.typ)
    && |m.desc| >= 2
  }

  /** First `j >= i` where "):" starts with at least two characters after it. */
  function FindCloseColon(s: String, i: nat): (j: Option<nat>)
    requires i <= |s|
    ensures j.Some? ==> i <= j.value && j.value + 4 <= |s| && CloseColonAt(s, j.value)
    ensures forall k: nat :: i <= k && k + 4 <= |s| && (j.None? || k < j.value) ==> !CloseColonAt(s, k)
    decreases |s| - i
  {
    if i + 4 > |s| then None
    else if s[i] == ')' && s[i + 1] == ':' then Some(i)
    else FindCloseColon(s, i + 1)
  }

  /** The search finds the first "):" that has two characters after it. */
  lemma {:induction false} FindCloseColonIs(s: String, i: nat, j: nat)
    requires i <= j && j + 4 <= |s| && CloseColonAt(s, j)
    requires forall k: nat :: i <= k < j ==> !CloseColonAt(s, k)
    ensures FindCloseColon(s, i) == Some(j)
    decreases j - i
  {
    if i < j {
      assert !CloseColonAt(s, i);
      FindCloseColonIs(s, i + 1, j);
    }
  }

  lemma NoCloseColonSlice(s: String, a: nat, b: nat)
    requires a <= b <= |s|
    requires forall k: nat :: a <= k < b ==> !CloseColonAt(s, k)
    ensures NoCloseColon(s[a..b])
  {
    forall k: nat | k < b - a
      ensures !CloseColonAt(s[a..b], k)
    {
      assert !CloseColonAt(s, a + k);
    }
  }

  lemma TypedArgPieces(line: String, n: nat, s: nat, j: nat)
    requires n <= s < j && j + 2 <= |line| && line[s] == '(' && line[j] == ')' && line[j + 1] == ':'
    ensures line == line[..n] + line[n..s] + "(" + line[s + 1..j] + "):" + line[j + 2..]
  {
    assert line == line[..j] + line[j..j + 2] + line[j + 2..];
    assert line[..j] == line[..n] + line[n..s] + [line[s]] + line[s + 1..j];
  }

  /** The reading of `line` whose name is its first `n` characters, whose gap
      ends at the "(" at `s` and whose type ends at the "):" at `j`. */
  function TypedArgAt(line: String, n: nat, s: nat, j: nat): (m: TypedArgMatch)
    requires 0 < n <= s < j && j + 4 <= |line| && line[s] == '(' && CloseColonAt(line, j)
    requires AllIn(NameChars, line[0..n]) && AllIn(Blanks, line[n..s])
    requires forall k: nat :: s + 1 <= k < j ==> !CloseColonAt(line, k)
    ensures IsTypedArgMatch(line, m)
    ensures |m.name| == n && |m.gap| == s - n && |m.typ| == j - s - 1
  {
    TypedArgPieces(line, n, s, j);
    NoCloseColonSlice(line, s + 1, j);
    assert line[..n] == line[0..n];
    TypedArgMatch(line[..n], line[n..s], line[s + 1..j], line[j + 2..])
  }

  /** `_RE_TYPED_ARGSTART.match(line)`, for a line without a newline (the
      pattern's `.` stops at one; every line the converter sees is free of
      them). */
  function MatchTypedArg(line: String): (m: Option<TypedArgMatch>)
    ensures m.Some? ==> IsTypedArgMatch(line, m.value)
  {
    var n := Run(NameChars, line, 0);
    var s := n + Run(Blanks, line, n);
    if n == 0 || s == |line| || line[s] != '(' then None
    else
      match FindCloseColon(line, s + 1)
      case None => None
      case Some(j) =>
        RunSpec(NameChars, line, 0);
        RunSpec(Blanks, line, n);
        Some(TypedArgAt(line, n, s, j))
  }

  /** Two readings of one line whose parts have the same lengths are equal. */
  lemma TypedArgSameLengths(line: String, m: TypedArgMatch, other: TypedArgMatch)
    requires IsTypedArgMatch(line, m) && IsTypedArgMatch(line, other)
    requires |m.name| == |other.name| && |m.gap| == |other.gap| && |m.typ| == |other.typ|
    ensures m == other
  {
    var a := m.name + m.gap + "(" + m.typ + "):";
    var b := other.name + other.gap + "(" + other.typ + "):";
    SplitCancel(a, m.desc, b, other.desc);
    SplitCancel(m.name + m.gap + "(" + m.typ, "):", other.name + other.gap + "(" + other.typ, "):");
    SplitCancel(m.name + m.gap + "(", m.typ, other.name + other.gap + "(", other.typ);
    SplitCancel(m.name + m.gap, "(", other.name + other.gap, "(");
    SplitCancel(m.name, m.gap, other.name, other.gap);
  }

  /** The name and gap runs the matcher measures are those of a reading. */
  lemma TypedArgRuns(line: String, m: TypedArgMatch)
    requires IsTypedArgMatch(line, m)
    ensures Run(NameChars, line, 0) == |m.name|
    ensures Run(Blanks, line, |m.name|) == |m.gap|
  {
    var tail := m.gap + ("(" + m.typ + "):" + m.desc);
    assert line == [] + m.name + tail;
    if m.gap != [] {
      assert tail[0] == m.gap[0];
    } else {
      assert tail[0] == '(';
    }
    RunAt(NameChars, [], m.name, tail);
    var rest := "(" + m.typ + "):" + m.desc;
    assert line == m.name + m.gap + rest;
    assert rest[0] == '(';
    RunAt(Blanks, m.name, m.gap, rest);
  }

  /** Where the parenthesis and the closing "):" of a reading sit. */
  lemma TypedArgDelimiters(line: String, m: TypedArgMatch)
    requires IsTypedArgMatch(line, m)
    ensures var s := |m.name| + |m.gap|;
      var j := s + 1 + |m.typ|;
      && j + 4 <= |line| && line[s] == '(' && CloseColonAt(line, j)
      && forall k: nat :: s + 1 <= k < j ==> !CloseColonAt(line, k)
  {
    var s := |m.name| + |m.gap|;
    var j := s + 1 + |m.typ|;
    var front := m.name + m.gap;
    var after := "(" + m.typ + "):" + m.desc;
    assert line == front + after;
    SplitCancel(front, after, line[..s], line[s..]);
    assert after == ['('] + (m.typ + ("):" + m.desc));
    assert line[s + 1..] == m.typ + ("):" + m.desc);
    assert line[j..] == "):" + m.desc;
    assert line[j] == ')' && line[j + 1] == ':';
    forall k: nat | s + 1 <= k < j
      ensures !CloseColonAt(line, k)
    {
      if k + 1 < j {
        assert line[k] == m.typ[k - s - 1] && line[k + 1] == m.typ[k - s];
        assert !CloseColonAt(m.typ, k - s - 1);
      }
    }
  }

  /** The pattern reads a line in at most one way, and the matcher finds it. */
  lemma TypedArgMatchComplete(line: String, m: TypedArgMatch)
    requires IsTypedArgMatch(line, m)
    ensures MatchTypedArg(line) == Some(m)
  {
    TypedArgRuns(line, m);
    TypedArgDelimiters(line, m);
    var s := |m.name| + |m.gap|;
    FindCloseColonIs(line, s + 1, s + 1 + |m.typ|);
    var r := MatchTypedArg(line);
    assert r.Some?;
    TypedArgSameLengths(line, m, r.value);
  }

  // ---------------------------------------------------------------------------
  // `_RE_ARGSTART` = `(\**[\w\[\]_]{1,}?)\s*?:(.{2,})?`
  // ---------------------------------------------------------------------------

  /** The groups of `_RE_ARGSTART`: the first group is `stars + name`, and
      `rest` is everything after the colon. */
  datatype ArgStartMatch = ArgStartMatch(stars: String, name: String, gap: String, rest: String)

  /** `m` is a way of reading `line` with the argument pattern: stars, a
      non-empty name, whitespace, then a colon. */
  predicate IsArgStartMatch(line: String, m: ArgStartMatch) {
    && line == m.stars + m.name + m.gap + ":" + m.rest
    && AllIn(Stars, m.stars)
    && m.name != [] && AllIn(NameChars, m.name)
    && AllIn(Blanks, m.gap)
  }

  lemma ArgStartPieces(line: String, a: nat, b: nat, c: nat)
    requires a <= b <= c < |line| && line[c] == ':'
    ensures line == line[..a] + line[a..b] + line[b..c] + ":" + line[c + 1..]
  {
    assert line == line[..c] + [line[c]] + line[c + 1..];
    assert line[..c] == line[..a] + line[a..b] + line[b..c];
  }

  /** The reading of `line` whose stars end at `st`, whose name is the next
      `n` characters and whose gap ends at the colon at `s`. */
  function ArgStartAt(line: String, st: nat, n: nat, s: nat): (m: ArgStartMatch)
    requires st + n <= s < |line| && line[s] == ':' && n > 0
    requires AllIn(Stars, line[0..st]) && AllIn(NameChars, line[st..st + n]) && AllIn(Blanks, line[st + n..s])
    ensures IsArgStartMatch(line, m)
    ensures |m.stars| == st && |m.name| == n && |m.gap| == s - st - n
  {
    ArgStartPieces(line, st, st + n, s);
    assert line[..st] == line[0..st];
    ArgStartMatch(line[..st], line[st..st + n], line[st + n..s], line[s + 1..])
  }

  /** `_RE_ARGSTART.match(line)`. */
  function MatchArgStart(line: String): (m: Option<ArgStartMatch>)
    ensures m.Some? ==> IsArgStartMatch(line, m.value)
  {
    var st := Run(Stars, line, 0);
    var n := Run(NameChars, line, st);
    var s := st + n + Run(Blanks, line, st + n);
    if n == 0 || s == |line| || line[s] != ':' then None
    else
      RunSpec(Stars, line, 0);
      RunSpec(NameChars, line, st);
      RunSpec(Blanks, line, st + n);
      Some(ArgStartAt(line, st, n, s))
  }

  /** Two readings of one line whose parts have the same lengths are equal. */
  lemma ArgStartSameLengths(line: String, m: ArgStartMatch, other: ArgStartMatch)
    requires IsArgStartMatch(line, m) && IsArgStartMatch(line, other)
    requires |m.stars| == |other.stars| && |m.name| == |other.name| && |m.gap| == |other.gap|
    ensures m == other
  {
    SplitCancel(m.stars + m.name + m.gap + ":", m.rest, other.stars + other.name + other.gap + ":", other.rest);
    SplitCancel(m.stars + m.name + m.gap, ":", other.stars + other.name + other.gap, ":");
    SplitCancel(m.stars + m.name, m.gap, other.stars + other.name, other.gap);
    SplitCancel(m.stars, m.name, other.stars, other.name);
  }

  /** The star and name runs the matcher measures are those of a reading. */
  lemma ArgStartStarsName(line: String, m: ArgStartMatch)
    requires IsArgStartMatch(line, m)
    ensures Run(Stars, line, 0) == |m.stars|
    ensures Run(NameChars, line, |m.stars|) == |m.name|
  {
    var tail := m.gap + (":" + m.rest);
    assert line == m.stars + m.name + tail;
    if m.gap != [] {
      assert tail[0] == m.gap[0];
    } else {
      assert tail[0] == ':';
    }
    assert (m.name + tail)[0] == m.name[0];
    assert line == [] + m.stars + (m.name + tail);
    RunAt(Stars, [], m.stars, m.name + tail);
    RunAt(NameChars, m.stars, m.name, tail);
  }

  /** The gap run the matcher measures, and the colon after it. */
  lemma ArgStartGap(line: String, m: ArgStartMatch, i: nat)
    requires IsArgStartMatch(line, m) && i == |m.stars| + |m.name|
    ensures i + |m.gap| < |line| && line[i + |m.gap|] == ':'
    ensures Run(Blanks, line, i) == |m.gap|
  {
    var front, colonRest := m.stars + m.name, ":" + m.rest;
    assert line == front + m.gap + colonRest;
    assert colonRest[0] == ':';
    RunAt(Blanks, front, m.gap, colonRest);
    SplitCancel(front + m.gap, colonRest, line[..i + |m.gap|], line[i + |m.gap|..]);
  }

  /** The pattern reads a line in at most one way, and the matcher finds it. */
  lemma ArgStartMatchComplete(line: String, m: ArgStartMatch)
    requires IsArgStartMatch(line, m)
    ensures MatchArgStart(line) == Some(m)
  {
    ArgStartStarsName(line, m);
    ArgStartGap(line, m, |m.stars| + |m.name|);
    var r := MatchArgStart(line);
    assert r.Some?;
    ArgStartSameLengths(line, m, r.value);
  }

  /** A line the bare-argument pattern reads is not one the typed-argument
      pattern reads: after the name and the whitespace comes ":" and not "(". */
  lemma ArgStartNotTyped(line: String, m: ArgStartMatch)
    requires IsArgStartMatch(line, m)
    ensures MatchTypedArg(line) == None
  {
    if m.stars != [] {
      assert line[0] == m.stars[0];
      assert Run(NameChars, line, 0) == 0;
    } else {
      ArgStartStarsName(line, m);
      ArgStartGap(line, m, |m.stars| + |m.name|);
    }
  }

  /** Where the first colon of a bare-argument line is, and so when the line
      is a section header instead. */
  lemma ArgStartHeader(line: String, m: ArgStartMatch)
    requires '\n' !in line && IsArgStartMatch(line, m)
    ensures IsHeader(line) <==>
      Lower(m.stars + m.name + m.gap + ":") in AllKeywords && |m.rest| <= 2
  {
    var s := |m.stars| + |m.name| + |m.gap|;
    var head := m.stars + m.name + m.gap + ":";
    SplitCancel(head, m.rest, line[..s + 1], line[s + 1..]);
    assert forall j :: 0 <= j < s ==> head[j] != ':' by {
      forall j | 0 <= j < s
        ensures head[j] != ':'
      {
        if j < |m.stars| {
          assert head[j] == m.stars[j];
        } else if j < |m.stars| + |m.name| {
          assert head[j] == m.name[j - |m.stars|];
        } else {
          assert head[j] == m.gap[j - |m.stars| - |m.name|];
        }
      }
    }
    assert line[s] == ':';
    assert ':' !in line[..s];
    HeaderAtFirstColon(line);
    assert IndexOf(line, ':') == s;
  }

  /** Neither the name nor the gap of a typed argument holds a colon. */
  lemma TypedArgFront(line: String, m: TypedArgMatch)
    requires IsTypedArgMatch(line, m)
    ensures forall j :: 0 <= j < |m.name| + |m.gap| ==> line[j] != ':'
  {
    var s := |m.name| + |m.gap|;
    TypedArgDelimiters(line, m);
    SplitCancel(m.name + m.gap, "(" + m.typ + "):" + m.desc, line[..s], line[s..]);
    forall j | 0 <= j < s
      ensures line[j] != ':'
    {
      if j < |m.name| {
        assert line[j] == m.name[j];
      } else {
        assert line[j] == m.gap[j - |m.name|];
      }
    }
  }

  /** A typed-argument line is never a section header: its "(" comes before
      any colon, and everything before a header's first colon is a letter. */
  lemma TypedArgNotHeader(line: String, m: TypedArgMatch)
    requires IsTypedArgMatch(line, m)
    ensures !IsHeader(line)
  {
    TypedArgDelimiters(line, m);
    TypedArgFront(line, m);
    HeaderLetters(line);
  }

  /** What the matchers and the header test make of a typed-argument line. */
  lemma TypedArgRead(line: String, m: TypedArgMatch)
    requires IsTypedArgMatch(line, m)
    ensures !IsHeader(line) && MatchTypedArg(line) == Some(m)
  {
    TypedArgNotHeader(line, m);
    TypedArgMatchComplete(line, m);
  }

  /** What the matchers and the header test make of a bare-argument line
      whose head is no section keyword. */
  lemma ArgStartRead(line: String, m: ArgStartMatch)
    requires '\n' !in line && IsArgStartMatch(line, m)
    requires !(Lower(m.stars + m.name + m.gap + ":") in AllKeywords && |m.rest| <= 2)
    ensures !IsHeader(line) && MatchTypedArg(line).None? && MatchArgStart(line) == Some(m)
  {
    ArgStartHeader(line, m);
    ArgStartNotTyped(line, m);
    ArgStartMatchComplete(line, m);
  }

  /** A line without a colon is neither a section header nor the start of
      an argument: every one of the five patterns needs a colon. */
  lemma NoColonPlainText(line: String)
    requires ':' !in line
    ensures !IsHeader(line) && MatchTypedArg(line).None? && MatchArgStart(line).None?
  {
    HeaderHasColon(line);
    if MatchTypedArg(line).Some? {
      var m := MatchTypedArg(line).value;
      TypedArgDelimiters(line, m);
    }
  }

  /** A line of whitespace starts no argument. */
  lemma BlankNoArgument(line: String)
    requires AllSpaces(line)
    ensures MatchTypedArg(line).None? && MatchArgStart(line).None?
  {
    assert Run(NameChars, line, 0) == 0;
    assert Run(Stars, line, 0) == 0;
  }

  /** `_RE_TYPED_ARGSTART.sub(r"<b>`\1`</b> (\2): \3", line)`: on one line the
      match runs to the end, so the whole line is replaced. */
  function TypedArgMarkdown(m: TypedArgMatch): String {
    "<b>`" + m.name + "`</b> (" + m.typ + "): " + m.desc
  }

  /** `_RE_ARGSTART.sub(r"<b>`\1`</b>: \2", line)`: whatever the optional
      group leaves unmatched (fewer than two characters) stays after the
      replacement, so the text after the colon always follows. */
  function ArgStartMarkdown(m: ArgStartMatch): String {
    "<b>`" + m.stars + m.name + "`</b>: " + m.rest
  }
}
