/** `_doc2md`: the one-pass conversion of a Google-style docstring into
    Markdown. The docstring is split on "\n" and each line is classified by a
    fixed order of tests (header, fence, literal-block trigger, quote text,
    bullet, deeper-indented line, plain text); a handful of variables carry
    over from one line to the next and fragments are appended to `out`. */
module DocToMarkdown {
  import opened Text
  import opened DocPatterns

  /** The variables `_doc2md` carries from one line to the next. */
  datatype ParseState = ParseState(
    blockIndent: nat,
    argIndent: nat,
    argList: bool,
    literalBlock: bool,
    codeSnippet: bool,
    quoteBlock: bool,
    snippetIndent: nat)

  const Initial := ParseState(0, 1, false, false, false, false, 0)

  /** What the loop keeps true: the snippet indentation is reset whenever no
      snippet is open, and an argument list and a quote are never open at
      once. */
  predicate Valid(st: ParseState) {
    && (!st.codeSnippet ==> st.snippetIndent == 0)
    && (st.quoteBlock ==> !st.argList)
  }

  /** The line before the doctest test: stripped on the left, or cut by the
      snippet indentation inside a snippet or literal block. */
  function Cut(st: ParseState, raw: String): (line: String)
    ensures EndsWith(raw, line) && forall c :: c in line ==> c in raw
    ensures !st.codeSnippet && !st.literalBlock ==> |raw| - |line| == Indent(raw)
    ensures st.codeSnippet || st.literalBlock ==>
      |raw| - |line| == if st.snippetIndent <= |raw| then st.snippetIndent else |raw|
  {
    if !st.codeSnippet && !st.literalBlock then LStrip(raw) else Drop(raw, st.snippetIndent)
  }

  /** The line the tests see: a doctest prompt ">>>" becomes a fence. */
  function Prepare(st: ParseState, raw: String): (line: String)
    ensures '\n' !in raw ==> '\n' !in line
    ensures StartsWith(Cut(st, raw), ">>>") ==> StartsWith(line, "```") && EndsWith(line, "```")
  {
    var line := Cut(st, raw);
    if StartsWith(line, ">>>") then
      ReplaceAllPrefix(line, ">>>", "```");
      var fenced := ReplaceAll(line, ">>>", "```") + "```";
      assert fenced[..3] == ReplaceAll(line, ">>>", "```")[..3];
      fenced
    else line
  }

  function Bold(line: String): String {
    "\n\n**" + Strip(line) + "**\n"
  }

  /** The bullet that starts one argument. */
  function ArgBullet(blockIndent: nat, md: String): String {
    "\n" + Spaces(blockIndent) + " - " + md
  }

  /** The `if/elif` chain of one iteration: the new state, the output list
      with this line's fragments appended, and the line as the plain-text
      branch leaves it. */
  function Branch(st: ParseState, indent: nat, line: String, out: seq<String>): (r: (ParseState, seq<String>, String))
    ensures |r.1| > |out| && r.1[..|out|] == out
  {
    if IsHeader(line) then
      var closed := if st.literalBlock then out + ["```\n"] else out;
      var bold := closed + [Bold(line)];
      var quoted := if IsQuoteHeader(line) then bold + ["\n>"] else bold;
      (st.(blockIndent := indent, literalBlock := false, argList := IsListHeader(line), quoteBlock := IsQuoteHeader(line)),
       quoted, line)
    else if StartsWith(Strip(line), "```") then
      if st.codeSnippet then (st.(codeSnippet := false, snippetIndent := 0), out + [line], line)
      else (st.(codeSnippet := true, snippetIndent := indent), out + ["\n"] + [line], line)
    else if EndsWith(Strip(line), "::") then
      (st.(literalBlock := true), out + [ReplaceAll(line, "::", ":\n```")], line)
    else if st.quoteBlock then
      (st, out + [Strip(line) + " "], line)
    else if StartsWith(Strip(line), "-") then
      (st, out + ["\n" + Spaces(indent) + line], line)
    else if indent > st.blockIndent then
      if st.argList && !st.literalBlock && MatchTypedArg(line).Some? then
        (st.(argIndent := indent), out + [ArgBullet(st.blockIndent, TypedArgMarkdown(MatchTypedArg(line).value))], line)
      else if st.argList && !st.literalBlock && MatchArgStart(line).Some? then
        (st.(argIndent := indent), out + [ArgBullet(st.blockIndent, ArgStartMarkdown(MatchArgStart(line).value))], line)
      else if st.argList && indent > st.argIndent then
        (st, out + [" " + line], line)
      else
        (st, out + [line], line)
    else
      var closes := Strip(line) != [] && st.literalBlock;
      var fenced := if closes then "```\n" + line else line;
      var st' := if closes then st.(literalBlock := false) else st;
      var plain := if !st'.literalBlock then fenced + " " else fenced;
      (st', out + [plain], plain)
  }

  /** What follows every line: a newline inside a snippet, a paragraph break
      after a blank line outside quotes, a new quote line after an empty
      line inside one. */
  function Suffix(st: ParseState, line: String, out: seq<String>): (r: seq<String>)
    ensures out <= r && |r| <= |out| + 1
    ensures |r| > |out| ==> r[|out|] in ["\n", "\n\n", "\n>"]
    ensures st.codeSnippet ==> |r| > |out|
  {
    if st.codeSnippet then out + ["\n"]
    else if Strip(line) == [] && !st.quoteBlock then out + ["\n\n"]
    else if line == [] && st.quoteBlock then out + ["\n>"]
    else out
  }

  /** One iteration of the loop on the raw line `raw`, with `out` the output
      list so far. */
  function Step(st: ParseState, raw: String, out: seq<String>): (ParseState, seq<String>)
  {
    var (st', out', line) := Branch(st, Indent(raw), Prepare(st, raw), out);
    (st', Suffix(st', line, out'))
  }

  /** The state and the output list after the loop has seen `lines`. */
  function RunLines(lines: seq<String>): (ParseState, seq<String>)
  {
    if lines == [] then (Initial, [])
    else
      var prev := RunLines(lines[..|lines| - 1]);
      Step(prev.0, lines[|lines| - 1], prev.1)
  }

  /** The loop's `i + 1`-th iteration is one more `Step`. */
  lemma RunPrefix(lines: seq<String>, i: nat)
    requires i < |lines|
    ensures RunLines(lines[..i + 1]) == Step(RunLines(lines[..i]).0, lines[i], RunLines(lines[..i]).1)
  {
    assert lines[..i + 1][..i] == lines[..i];
  }

  /** `"\n".join(line.rstrip() for line in "".join(out).splitlines())`. */
  function Finish(out: seq<String>): String {
    JoinWith(RStripAll(SplitLines(Concat(out))), '\n')
  }

  /** The Markdown `_doc2md` returns for the docstring `doc`. */
  function Render(doc: String): String {
    Finish(RunLines(Split(doc, '\n')).1)
  }

  /** `_doc2md`, on the docstring text. */
  method Doc2Md(doc: String) returns (content: String)
    ensures content == Render(doc)
    ensures forall i :: 0 <= i < |Split(content, '\n')| ==> NoTrailingSpace(Split(content, '\n')[i])
  {
    var lines := Split(doc, '\n');
    var st := Initial;
    var out: seq<String> := [];
    for i := 0 to |lines|
      invariant (st, out) == RunLines(lines[..i])
    {
      RunPrefix(lines, i);
      st, out := ConvertLine(st, lines[i], out);
    }
    assert lines[..|lines|] == lines;
    content := Finish(out);
    RenderLines(out);
  }

  /** One pass of `_doc2md`'s loop body: the line `raw` is prepared, sent
      down the `if/elif` chain, and followed by its suffix. The method keeps
      the source's statement-by-statement updates; `Step` is the same pass
      as a function, which the lemmas below and `RunLines` reason with. */
  method ConvertLine(st: ParseState, raw: String, out0: seq<String>) returns (st': ParseState, out: seq<String>)
    ensures (st', out) == Step(st, raw, out0)
  {
    var indent := Indent(raw);
    var line := Cut(st, raw);
    if StartsWith(line, ">>>") {
      line := ReplaceAll(line, ">>>", "```") + "```";
    }
    assert line == Prepare(st, raw);
    st', out, line := Dispatch(st, indent, line, out0);
    if st'.codeSnippet {
      out := out + ["\n"];
    } else if Strip(line) == [] && !st'.quoteBlock {
      out := out + ["\n\n"];
    } else if line == [] && st'.quoteBlock {
      out := out + ["\n>"];
    }
  }

  /** The `if/elif` chain that classifies the prepared line `line`, with the
      source's assignments to the seven loop variables; it is proved to
      agree with `Branch`, its specification. */
  method Dispatch(st: ParseState, indent: nat, line0: String, out0: seq<String>) returns (st': ParseState, out: seq<String>, line: String)
    ensures (st', out, line) == Branch(st, indent, line0, out0)
  {
    var blockindent, argindent, argList, literalBlock := st.blockIndent, st.argIndent, st.argList, st.literalBlock;
    var codeSnippet, quoteBlock, snippetIndent := st.codeSnippet, st.quoteBlock, st.snippetIndent;
    out, line := out0, line0;
    if IsListHeader(line) || IsTextHeader(line) || IsQuoteHeader(line) {
      blockindent := indent;
      if quoteBlock {
        quoteBlock := false;
      }
      if literalBlock {
        out := out + ["```\n"];
        literalBlock := false;
      }
      out := out + [Bold(line)];
      argList := IsListHeader(line);
      if IsQuoteHeader(line) {
        quoteBlock := true;
        out := out + ["\n>"];
      }
    } else if StartsWith(Strip(line), "```") {
      if codeSnippet {
        codeSnippet := false;
        snippetIndent := 0;
      } else {
        codeSnippet := true;
        snippetIndent := indent;
        out := out + ["\n"];
      }
      out := out + [line];
    } else if EndsWith(Strip(line), "::") {
      literalBlock := true;
      out := out + [ReplaceAll(line, "::", ":\n```")];
    } else if quoteBlock {
      out := out + [Strip(line) + " "];
    } else if StartsWith(Strip(line), "-") {
      out := out + ["\n" + Spaces(indent) + line];
    } else if indent > blockindent {
      if argList && !literalBlock && MatchTypedArg(line).Some? {
        out := out + [ArgBullet(blockindent, TypedArgMarkdown(MatchTypedArg(line).value))];
        argindent := indent;
      } else if argList && !literalBlock && MatchArgStart(line).Some? {
        out := out + [ArgBullet(blockindent, ArgStartMarkdown(MatchArgStart(line).value))];
        argindent := indent;
      } else if argList && indent > argindent {
        out := out + [" " + line];
      } else {
        out := out + [line];
      }
    } else {
      if Strip(line) != [] && literalBlock {
        line := "```\n" + line;
        literalBlock := false;
      }
      if !literalBlock {
        line := line + " ";
      }
      out := out + [line];
    }
    st' := ParseState(blockindent, argindent, argList, literalBlock, codeSnippet, quoteBlock, snippetIndent);
  }

  /** Every line of the result is right-trimmed and holds no line boundary. */
  lemma RenderLines(out: seq<String>)
    ensures var parts := Split(Finish(out), '\n');
      forall i :: 0 <= i < |parts| ==> NoTrailingSpace(parts[i]) && NoLineBreak(parts[i])
  {
    var lines := RStripAll(SplitLines(Concat(out)));
    forall i | 0 <= i < |lines|
      ensures '\n' !in lines[i] && NoLineBreak(lines[i])
    {
      var whole := SplitLines(Concat(out))[i];
      assert lines[i] == whole[..|lines[i]|];
      assert forall j :: 0 <= j < |lines[i]| ==> lines[i][j] == whole[j];
    }
    if lines != [] {
      SplitJoin(lines, '\n');
    }
  }

  // ---------------------------------------------------------------------------
  // The state and the output over the whole run
  // ---------------------------------------------------------------------------

  /** The `if/elif` chain keeps `Valid`: closing a snippet resets its
      indentation, and a header never opens an argument list and a quote
      together. */
  lemma BranchValid(st: ParseState, indent: nat, line: String, out: seq<String>)
    requires Valid(st)
    ensures Valid(Branch(st, indent, line, out).0)
  {
    if IsHeader(line) {
      ListAndQuoteHeadersExclusive(line);
    } else if StartsWith(Strip(line), "```") {
    } else if EndsWith(Strip(line), "::") {
    } else if st.quoteBlock {
    } else if StartsWith(Strip(line), "-") {
    } else if indent > st.blockIndent {
      if st.argList && !st.literalBlock && MatchTypedArg(line).Some? {
      } else if st.argList && !st.literalBlock && MatchArgStart(line).Some? {
      } else if st.argList && indent > st.argIndent {
      } else {
      }
    } else {
    }
  }

  /** Every line keeps `Valid`. */
  lemma StepValid(st: ParseState, raw: String, out: seq<String>)
    requires Valid(st)
    ensures Valid(Step(st, raw, out).0)
  {
    BranchValid(st, Indent(raw), Prepare(st, raw), out);
  }

  /** `Valid` holds after any number of lines. */
  lemma {:induction false} RunValid(lines: seq<String>)
    ensures Valid(RunLines(lines).0)
  {
    if lines != [] {
      var prev := lines[..|lines| - 1];
      RunValid(prev);
      StepValid(RunLines(prev).0, lines[|lines| - 1], RunLines(prev).1);
    }
  }

  /** Only a header changes the section: every other line keeps the block
      indentation and whether an argument list or a quote is open. */
  lemma BranchKeepsSection(st: ParseState, indent: nat, line: String, out: seq<String>)
    requires !IsHeader(line)
    ensures var st' := Branch(st, indent, line, out).0;
      st'.blockIndent == st.blockIndent && st'.argList == st.argList && st'.quoteBlock == st.quoteBlock
  {
    if StartsWith(Strip(line), "```") {
    } else if EndsWith(Strip(line), "::") {
    } else if st.quoteBlock {
    } else if StartsWith(Strip(line), "-") {
    } else if indent > st.blockIndent {
      if st.argList && !st.literalBlock && MatchTypedArg(line).Some? {
      } else if st.argList && !st.literalBlock && MatchArgStart(line).Some? {
      } else if st.argList && indent > st.argIndent {
      } else {
      }
    } else {
    }
  }

  lemma StepKeepsSection(st: ParseState, raw: String, out: seq<String>)
    requires !IsHeader(Prepare(st, raw))
    ensures var st' := Step(st, raw, out).0;
      st'.blockIndent == st.blockIndent && st'.argList == st.argList && st'.quoteBlock == st.quoteBlock
  {
    BranchKeepsSection(st, Indent(raw), Prepare(st, raw), out);
  }

  /** A line only appends to the output. */
  lemma StepExtends(st: ParseState, raw: String, out: seq<String>)
    ensures out <= Step(st, raw, out).1
  {
    var b := Branch(st, Indent(raw), Prepare(st, raw), out);
    assert Step(st, raw, out).1 == Suffix(b.0, b.2, b.1);
    PrefixTrans(out, b.1, Suffix(b.0, b.2, b.1));
  }

  /** The output after some of the lines is a prefix of the output after
      all of them. */
  lemma {:induction false} RunAppendOnly(lines: seq<String>, i: nat)
    requires i <= |lines|
    ensures RunLines(lines[..i]).1 <= RunLines(lines).1
    decreases |lines|
  {
    if i < |lines| {
      var prev := lines[..|lines| - 1];
      assert prev[..i] == lines[..i];
      RunAppendOnly(prev, i);
      StepExtends(RunLines(prev).0, lines[|lines| - 1], RunLines(prev).1);
      PrefixTrans(RunLines(lines[..i]).1, RunLines(prev).1, RunLines(lines).1);
    } else {
      assert lines[..i] == lines;
    }
  }

  lemma PrefixTrans(a: seq<String>, b: seq<String>, c: seq<String>)
    requires a <= b && b <= c
    ensures a <= c
  {
    assert c[..|a|] == b[..|a|];
  }

  /** `TypedArgSeen` for a line that is already cut. */
  lemma TypedArgLineSeen(st: ParseState, line: String, m: TypedArgMatch)
    requires !st.quoteBlock
    requires IsTypedArgMatch(line, m) && !EndsWith(Strip(line), "::")
    ensures line != [] && line[0] != '>' && Strip(line) != []
    ensures PassesOver(st, line) && MatchTypedArg(line) == Some(m)
  {
    assert line[0] == m.name[0];
    VisibleLead(line);
    TypedArgSeen(st, line, m);
  }

  /** `BareArgSeen` for a line that is already cut. */
  lemma BareArgLineSeen(st: ParseState, line: String, m: ArgStartMatch)
    requires '\n' !in line && !st.quoteBlock
    requires IsArgStartMatch(line, m) && !EndsWith(Strip(line), "::")
    requires !(Lower(m.stars + m.name + m.gap + ":") in AllKeywords && |m.rest| <= 2)
    ensures line != [] && line[0] != '>' && Strip(line) != []
    ensures PassesOver(st, line) && MatchTypedArg(line).None? && MatchArgStart(line) == Some(m)
  {
    if m.stars != [] {
      assert line[0] == m.stars[0];
    } else {
      assert line[0] == m.name[0];
    }
    VisibleLead(line);
    BareArgSeen(st, line, m);
  }

  /** Cutting a line adds no newline. */
  lemma CutNoNewline(st: ParseState, raw: String)
    requires '\n' !in raw
    ensures '\n' !in Cut(st, raw)
  {
  }

  // ---------------------------------------------------------------------------
  // What each kind of line does
  // ---------------------------------------------------------------------------

  /** A line whose first character is not a letter is no header. */
  lemma NotHeaderByLead(line: String)
    ensures line == [] || !IsAsciiLetter(line[0]) ==> !IsHeader(line)
  {
    if IsHeader(line) {
      HeaderStartsWithLetter(line);
    }
  }

  lemma AppendTwo(out: seq<String>, a: String, b: String)
    ensures out + [a] + [b] == out + [a, b]
  {
  }

  lemma AppendThree(out: seq<String>, a: String, b: String, c: String)
    ensures out + [a] + [b] + [c] == out + [a, b, c]
  {
  }

  /** A line that does not start with ">" is not a doctest prompt. */
  lemma PrepareIsCut(st: ParseState, raw: String)
    requires Cut(st, raw) == [] || Cut(st, raw)[0] != '>'
    ensures Prepare(st, raw) == Cut(st, raw)
  {
    var line := Cut(st, raw);
    if |line| >= 3 {
      assert line[..3][0] == line[0];
    }
  }

  /** A line's step is its branch followed by its suffix. */
  lemma StepBy(st: ParseState, raw: String, out: seq<String>, r: (ParseState, seq<String>, String))
    requires Branch(st, Indent(raw), Prepare(st, raw), out) == r
    ensures Step(st, raw, out) == (r.0, Suffix(r.0, r.2, r.1))
  {
  }

  // ---------------------------------------------------------------------------
  // The branches, one kind of line at a time
  // ---------------------------------------------------------------------------

  lemma HeaderBranch(st: ParseState, indent: nat, line: String, out: seq<String>)
    requires IsHeader(line)
    ensures Branch(st, indent, line, out) ==
      (st.(blockIndent := indent, literalBlock := false, argList := IsListHeader(line), quoteBlock := IsQuoteHeader(line)),
       out + (if st.literalBlock then ["```\n"] else []) + [Bold(line)] + (if IsQuoteHeader(line) then ["\n>"] else []),
       line)
  {
    var closed := if st.literalBlock then out + ["```\n"] else out;
    if st.literalBlock {
      assert closed == out + ["```\n"];
    } else {
      assert out + [] == out;
    }
    if !IsQuoteHeader(line) {
      assert closed + [Bold(line)] + [] == closed + [Bold(line)];
    }
  }

  lemma QuoteBranch(st: ParseState, indent: nat, line: String, out: seq<String>)
    requires st.quoteBlock && !IsHeader(line)
    requires !StartsWith(Strip(line), "```") && !EndsWith(Strip(line), "::")
    ensures Branch(st, indent, line, out) == (st, out + [Strip(line) + " "], line)
  {
  }

  lemma BulletBranch(st: ParseState, indent: nat, line: String, out: seq<String>)
    requires !st.quoteBlock && !IsHeader(line)
    requires !StartsWith(Strip(line), "```") && !EndsWith(Strip(line), "::") && StartsWith(Strip(line), "-")
    ensures Branch(st, indent, line, out) == (st, out + ["\n" + Spaces(indent) + line], line)
  {
  }

  /** The tests the indented and plain branches come after all fail. */
  predicate PassesOver(st: ParseState, line: String) {
    && !IsHeader(line) && !st.quoteBlock
    && !StartsWith(Strip(line), "```") && !EndsWith(Strip(line), "::") && !StartsWith(Strip(line), "-")
  }

  lemma TypedArgBranch(st: ParseState, indent: nat, line: String, out: seq<String>, m: TypedArgMatch)
    requires PassesOver(st, line) && indent > st.blockIndent
    requires st.argList && !st.literalBlock && MatchTypedArg(line) == Some(m)
    ensures Branch(st, indent, line, out) == (st.(argIndent := indent), out + [ArgBullet(st.blockIndent, TypedArgMarkdown(m))], line)
  {
  }

  lemma BareArgBranch(st: ParseState, indent: nat, line: String, out: seq<String>, m: ArgStartMatch)
    requires PassesOver(st, line) && indent > st.blockIndent
    requires st.argList && !st.literalBlock && MatchTypedArg(line).None? && MatchArgStart(line) == Some(m)
    ensures Branch(st, indent, line, out) == (st.(argIndent := indent), out + [ArgBullet(st.blockIndent, ArgStartMarkdown(m))], line)
  {
  }

  lemma ContinuationBranch(st: ParseState, indent: nat, line: String, out: seq<String>)
    requires PassesOver(st, line) && indent > st.blockIndent
    requires st.argList && indent > st.argIndent
    requires st.literalBlock || (MatchTypedArg(line).None? && MatchArgStart(line).None?)
    ensures Branch(st, indent, line, out) == (st, out + [" " + line], line)
  {
  }

  lemma PassThroughBranch(st: ParseState, indent: nat, line: String, out: seq<String>)
    requires PassesOver(st, line) && indent > st.blockIndent
    requires !(st.argList && !st.literalBlock && (MatchTypedArg(line).Some? || MatchArgStart(line).Some?))
    requires !(st.argList && indent > st.argIndent)
    ensures Branch(st, indent, line, out) == (st, out + [line], line)
  {
  }

  /** The suffix of a line that leaves the state alone outside quotes. */
  lemma ClosingBranch(st: ParseState, indent: nat, line: String, out: seq<String>)
    requires PassesOver(st, line) && indent <= st.blockIndent
    requires st.literalBlock && Strip(line) != []
    ensures var plain := "```\n" + line + " ";
      Branch(st, indent, line, out) == (st.(literalBlock := false), out + [plain], plain)
  {
  }

  lemma ProseBranch(st: ParseState, indent: nat, line: String, out: seq<String>)
    requires PassesOver(st, line) && indent <= st.blockIndent && !st.literalBlock
    ensures Branch(st, indent, line, out) == (st, out + [line + " "], line + " ")
  {
  }

  lemma VisibleSuffix(st: ParseState, line: String, out: seq<String>)
    requires Strip(line) != []
    ensures Suffix(st, line, out) == out + (if st.codeSnippet then ["\n"] else [])
  {
    assert |Strip(line)| <= |LStrip(line)| <= |line|;
    if !st.codeSnippet {
      assert out + [] == out;
    }
  }

  lemma FenceBranch(st: ParseState, indent: nat, line: String, out: seq<String>)
    requires !IsHeader(line) && StartsWith(Strip(line), "```")
    ensures Branch(st, indent, line, out) ==
      if st.codeSnippet then (st.(codeSnippet := false, snippetIndent := 0), out + [line], line)
      else (st.(codeSnippet := true, snippetIndent := indent), out + ["\n"] + [line], line)
  {
  }

  lemma QuotedSuffix(st: ParseState, line: String, out: seq<String>)
    requires st.quoteBlock
    ensures Suffix(st, line, out) == out + (if st.codeSnippet then ["\n"] else if line == [] then ["\n>"] else [])
  {
    if !st.codeSnippet && line != [] {
      assert out + [] == out;
    }
  }

  lemma UnquotedSuffix(st: ParseState, line: String, out: seq<String>)
    requires !st.quoteBlock
    ensures Suffix(st, line, out) == out + (if st.codeSnippet then ["\n"] else if Strip(line) == [] then ["\n\n"] else [])
  {
    if !st.codeSnippet && Strip(line) != [] {
      assert out + [] == out;
    }
  }

  /** A blank line: the indented branch copies it (after a space inside an
      argument list), the plain branch appends a space unless a literal
      block is open. */
  lemma BlankBranch(st: ParseState, indent: nat, line: String, out: seq<String>)
    requires AllSpaces(line) && !st.quoteBlock
    ensures var b := Branch(st, indent, line, out);
      b.0 == st && b.1 == out + [b.1[|out|]] && AllSpaces(b.1[|out|]) && AllSpaces(b.2)
  {
    BlankStrip(line);
    NotHeaderByLead(line);
    BlankNoArgument(line);
    assert !StartsWith(Strip(line), "```") && !EndsWith(Strip(line), "::") && !StartsWith(Strip(line), "-");
    var b := Branch(st, indent, line, out);
    PaddedBlank(line);
    if indent > st.blockIndent {
      var frag := if st.argList && indent > st.argIndent then " " + line else line;
      assert b == (st, out + [frag], line);
      assert b.1[|out|] == frag;
    } else {
      var frag := if st.literalBlock then line else line + " ";
      assert b == (st, out + [frag], frag);
      assert b.1[|out|] == frag;
    }
  }

  /** A blank line stays blank with a space on either side. */
  lemma PaddedBlank(line: String)
    requires AllSpaces(line)
    ensures AllSpaces(" " + line) && AllSpaces(line + " ")
  {
    assert forall i :: 0 < i <= |line| ==> (" " + line)[i] == line[i - 1];
    assert forall i :: 0 <= i < |line| ==> (line + " ")[i] == line[i];
  }

  /** Outside a header and a fence the chain leaves the snippet as it is. */
  lemma BranchKeepsSnippet(st: ParseState, indent: nat, line: String, out: seq<String>)
    requires !IsHeader(line) && !StartsWith(Strip(line), "```")
    ensures var st' := Branch(st, indent, line, out).0;
      st'.codeSnippet == st.codeSnippet && st'.snippetIndent == st.snippetIndent
  {
    var st' := Branch(st, indent, line, out).0;
    if EndsWith(Strip(line), "::") {
      assert st' == st.(literalBlock := true);
    } else if st.quoteBlock || StartsWith(Strip(line), "-") {
      assert st' == st;
    } else if indent > st.blockIndent {
      if st.argList && !st.literalBlock && (MatchTypedArg(line).Some? || MatchArgStart(line).Some?) {
        assert st' == st.(argIndent := indent);
      } else {
        assert st' == st;
      }
    } else {
      assert st' == st || st' == st.(literalBlock := false);
    }
  }

  // ---------------------------------------------------------------------------
  // Which branch a raw line reaches
  // ---------------------------------------------------------------------------

  /** A header starts with a letter and names its keyword up to the first
      colon. */
  lemma HeaderSeen(line: String)
    requires '\n' !in line && IsHeader(line)
    ensures line != [] && IsAsciiLetter(line[0]) && Strip(line) != [] && ':' in line
    ensures |line| - (IndexOf(line, ':') + 1) <= 2
    ensures var kw := Lower(line[..IndexOf(line, ':') + 1]);
      IsListHeader(line) == (kw in ListKeywords) && IsQuoteHeader(line) == (kw in QuoteKeywords)
  {
    HeaderStartsWithLetter(line);
    StripFirst(line);
    HeaderHasColon(line);
    KeywordsWellFormed();
    HeaderKeyword(line, ListKeywords);
    HeaderKeyword(line, TextKeywords);
    HeaderKeyword(line, QuoteKeywords);
  }

  /** A line that strips to a dash is no header and no fence. */
  lemma DashSeen(line: String)
    requires StartsWith(Strip(line), "-")
    ensures !IsHeader(line) && !StartsWith(Strip(line), "```") && Strip(line) != []
  {
    StartsWithFirst(Strip(line), "-");
    StartsDiffer(Strip(line), "-", "```");
    assert |Strip(line)| <= |LStrip(line)| <= |line|;
    if IsSpace(line[0]) {
      SpaceNotLetter(line[0]);
    } else {
      StripFirst(line);
    }
    NotHeaderByLead(line);
  }

  /** A blank line leads with no letter and no '>'. */
  lemma BlankLead(line: String)
    requires AllSpaces(line)
    ensures !IsHeader(line) && (line == [] || line[0] != '>')
  {
    if line != [] {
      SpaceNotLetter(line[0]);
    }
    NotHeaderByLead(line);
  }

  /** A line that strips to a fence is no section header. */
  lemma FenceSeen(line: String)
    requires StartsWith(Strip(line), "```")
    ensures line != [] && !IsHeader(line)
  {
    StartsWithFirst(Strip(line), "```");
    assert |Strip(line)| <= |LStrip(line)| <= |line|;
    if IsSpace(line[0]) {
      SpaceNotLetter(line[0]);
    } else {
      StripFirst(line);
    }
    NotHeaderByLead(line);
  }

  /** No whitespace character is an ASCII letter. */
  lemma SpaceNotLetter(c: char)
    ensures IsSpace(c) ==> !IsAsciiLetter(c)
  {
  }

  /** The first visible character of a line rules out a fence and a bullet. */
  lemma LeadNotFence(raw: String)
    requires LStrip(raw) != [] && LStrip(raw)[0] != '`' && LStrip(raw)[0] != '-'
    ensures !StartsWith(Strip(raw), "```") && !StartsWith(Strip(raw), "-")
  {
    LeadOf(raw);
    if StartsWith(Strip(raw), "```") {
      StartsWithFirst(Strip(raw), "```");
    }
    if StartsWith(Strip(raw), "-") {
      StartsWithFirst(Strip(raw), "-");
    }
  }

  /** An argument line starts with a star or a name character, so it is
      no doctest prompt, no fence and no bullet, and it is visible. */
  lemma ArgumentLead(raw: String)
    requires LStrip(raw) != [] && (LStrip(raw)[0] == '*' || IsNameChar(LStrip(raw)[0]))
    ensures LStrip(raw)[0] != '>' && Strip(LStrip(raw)) != [] && Strip(LStrip(raw)) == Strip(raw)
    ensures !StartsWith(Strip(LStrip(raw)), "```") && !StartsWith(Strip(LStrip(raw)), "-")
  {
    LeadNotFence(raw);
    LeadOf(raw);
  }

  /** A typed-argument line is seen as one: no test before it fires. */
  lemma TypedArgSeen(st: ParseState, raw: String, m: TypedArgMatch)
    requires !st.quoteBlock
    requires IsTypedArgMatch(LStrip(raw), m) && !EndsWith(Strip(raw), "::")
    ensures LStrip(raw) != [] && LStrip(raw)[0] != '>' && Strip(LStrip(raw)) != []
    ensures PassesOver(st, LStrip(raw)) && MatchTypedArg(LStrip(raw)) == Some(m)
  {
    var line := LStrip(raw);
    assert line[0] == m.name[0];
    ArgumentLead(raw);
    TypedArgRead(line, m);
  }

  /** A bare-argument line whose head is no section keyword is seen as an
      argument: no test before it fires. */
  lemma BareArgSeen(st: ParseState, raw: String, m: ArgStartMatch)
    requires '\n' !in raw && !st.quoteBlock
    requires IsArgStartMatch(LStrip(raw), m) && !EndsWith(Strip(raw), "::")
    requires !(Lower(m.stars + m.name + m.gap + ":") in AllKeywords && |m.rest| <= 2)
    ensures LStrip(raw) != [] && LStrip(raw)[0] != '>' && Strip(LStrip(raw)) != []
    ensures PassesOver(st, LStrip(raw)) && MatchTypedArg(LStrip(raw)).None? && MatchArgStart(LStrip(raw)) == Some(m)
  {
    var line := LStrip(raw);
    if m.stars != [] {
      assert line[0] == m.stars[0];
    } else {
      assert line[0] == m.name[0];
    }
    ArgumentLead(raw);
    assert '\n' !in line by {
      assert line == Cut(Initial, raw);
    }
    ArgStartRead(line, m);
  }

  // ---------------------------------------------------------------------------
  // What each kind of line does
  // ---------------------------------------------------------------------------

  /** A section header: the section's keyword is the text up to the first
      colon; it sets the block indentation, opens an argument list exactly
      for a list keyword and a quote exactly for a note keyword, closes an
      open literal block with a fence, and emits the header in bold (and,
      inside a snippet, a line break after it). */
  lemma HeaderLine(st: ParseState, raw: String, out: seq<String>)
    requires '\n' !in raw
    requires IsHeader(Cut(st, raw))
    ensures ':' in Cut(st, raw)
    ensures var line := Cut(st, raw); var kw := Lower(line[..IndexOf(line, ':') + 1]);
      Step(st, raw, out).0 == st.(blockIndent := Indent(raw), literalBlock := false,
        argList := kw in ListKeywords, quoteBlock := kw in QuoteKeywords)
    ensures var line := Cut(st, raw); var kw := Lower(line[..IndexOf(line, ':') + 1]);
      Step(st, raw, out).1 == out + (if st.literalBlock then ["```\n"] else []) + [Bold(line)]
        + (if kw in QuoteKeywords then ["\n>"] else []) + (if st.codeSnippet then ["\n"] else [])
  {
    var line := Cut(st, raw);
    CutNoNewline(st, raw);
    HeaderSeen(line);
    var kw := Lower(line[..IndexOf(line, ':') + 1]);
    HeaderStepAs(st, raw, out, kw in ListKeywords, kw in QuoteKeywords);
  }

  /** `HeaderStep` with the two header tests given as booleans. */
  lemma HeaderStepAs(st: ParseState, raw: String, out: seq<String>, isList: bool, isQuote: bool)
    requires IsHeader(Cut(st, raw))
    requires IsListHeader(Cut(st, raw)) == isList && IsQuoteHeader(Cut(st, raw)) == isQuote
    ensures Step(st, raw, out).0 ==
      st.(blockIndent := Indent(raw), literalBlock := false, argList := isList, quoteBlock := isQuote)
    ensures Step(st, raw, out).1 ==
      out + (if st.literalBlock then ["```\n"] else []) + [Bold(Cut(st, raw))] + (if isQuote then ["\n>"] else [])
        + (if st.codeSnippet then ["\n"] else [])
  {
    HeaderStep(st, raw, out);
  }

  /** A header takes the header branch; only inside a snippet does a line
      break follow it. */
  lemma HeaderStep(st: ParseState, raw: String, out: seq<String>)
    requires IsHeader(Cut(st, raw))
    ensures var line := Cut(st, raw);
      Step(st, raw, out) ==
        (st.(blockIndent := Indent(raw), literalBlock := false, argList := IsListHeader(line), quoteBlock := IsQuoteHeader(line)),
         out + (if st.literalBlock then ["```\n"] else []) + [Bold(line)] + (if IsQuoteHeader(line) then ["\n>"] else [])
           + (if st.codeSnippet then ["\n"] else []))
  {
    var line := Cut(st, raw);
    HeaderStartsWithLetter(line);
    StripFirst(line);
    PrepareIsCut(st, raw);
    HeaderBranch(st, Indent(raw), line, out);
    var b := Branch(st, Indent(raw), line, out);
    StepBy(st, raw, out, b);
    VisibleSuffix(b.0, line, b.1);
  }

  /** A line that starts with three backticks opens a snippet, remembering
      its indentation, or closes the open one; the fence line is copied, set
      apart by line breaks when it opens. */
  lemma FenceLine(st: ParseState, raw: String, out: seq<String>)
    requires StartsWith(Strip(Prepare(st, raw)), "```")
    ensures var line := Prepare(st, raw);
      if st.codeSnippet then
        Step(st, raw, out) == (st.(codeSnippet := false, snippetIndent := 0), out + [line])
      else
        Step(st, raw, out) == (st.(codeSnippet := true, snippetIndent := Indent(raw)), out + ["\n", line, "\n"])
  {
    var line := Prepare(st, raw);
    FenceSeen(line);
    assert |Strip(line)| >= 3;
    FenceBranch(st, Indent(raw), line, out);
    var b := Branch(st, Indent(raw), line, out);
    StepBy(st, raw, out, b);
    VisibleSuffix(b.0, line, b.1);
    if !st.codeSnippet {
      AppendThree(out, "\n", line, "\n");
    }
  }

  /** A doctest prompt ">>>" becomes a fence, so it opens a snippet or
      closes the open one. */
  lemma DoctestLine(st: ParseState, raw: String, out: seq<String>)
    requires StartsWith(Cut(st, raw), ">>>")
    ensures StartsWith(Prepare(st, raw), "```") && EndsWith(Prepare(st, raw), "```")
    ensures Step(st, raw, out).0.codeSnippet == !st.codeSnippet
  {
    DoctestFence(st, raw);
    FenceLine(st, raw, out);
  }

  /** The line a doctest prompt becomes strips to a fence. */
  lemma DoctestFence(st: ParseState, raw: String)
    ensures StartsWith(Cut(st, raw), ">>>") ==> StartsWith(Strip(Prepare(st, raw)), "```")
  {
    if StartsWith(Cut(st, raw), ">>>") {
      var line := Prepare(st, raw);
      assert line[..3] == "```" && line[|line| - 3..] == "```";
      assert line[0] == '`' && line[|line| - 1] == '`';
      StripVisible(line);
    }
  }

  /** A line that does not strip to a fence is seen as cut: it was no
      doctest prompt. */
  lemma SeenAsCut(st: ParseState, raw: String)
    requires !StartsWith(Strip(Prepare(st, raw)), "```")
    ensures Prepare(st, raw) == Cut(st, raw)
  {
    DoctestFence(st, raw);
  }

  /** Inside a snippet every line other than a header or a fence keeps the
      snippet open and is followed by a line break. */
  lemma SnippetLine(st: ParseState, raw: String, out: seq<String>)
    requires st.codeSnippet
    requires !IsHeader(Prepare(st, raw)) && !StartsWith(Strip(Prepare(st, raw)), "```")
    ensures Prepare(st, raw) == Drop(raw, st.snippetIndent)
    ensures var (st', out') := Step(st, raw, out);
      st'.codeSnippet && st'.snippetIndent == st.snippetIndent && out < out' && out'[|out'| - 1] == "\n"
  {
    SeenAsCut(st, raw);
    var b := Branch(st, Indent(raw), Prepare(st, raw), out);
    BranchKeepsSnippet(st, Indent(raw), Prepare(st, raw), out);
    StepBy(st, raw, out, b);
  }

  /** A line ending in "::" opens a literal block: the first "::" becomes ":"
      and a fence, and so does every other "::" of the line. */
  lemma LiteralLine(st: ParseState, raw: String, out: seq<String>)
    requires var line := Prepare(st, raw);
      !IsHeader(line) && !StartsWith(Strip(line), "```") && EndsWith(Strip(line), "::")
    ensures Step(st, raw, out) ==
      (st.(literalBlock := true), out + [ReplaceAll(Prepare(st, raw), "::", ":\n```")] + (if st.codeSnippet then ["\n"] else []))
  {
    var line := Prepare(st, raw);
    var b := Branch(st, Indent(raw), line, out);
    assert Step(st, raw, out) == (b.0, Suffix(b.0, b.2, b.1));
    assert |Strip(line)| <= |LStrip(line)| <= |line|;
    if !st.codeSnippet {
      assert b.1 + [] == b.1;
    }
  }

  /** Inside a literal block, a visible line at or left of the section's
      indentation closes the block with a fence and is then plain text. */
  lemma LiteralClosed(st: ParseState, raw: String, out: seq<String>)
    requires st.literalBlock && Indent(raw) <= st.blockIndent
    requires var line := Prepare(st, raw); Strip(line) != [] && PassesOver(st, line)
    ensures var line := Drop(raw, st.snippetIndent);
      Step(st, raw, out) ==
        (st.(literalBlock := false), out + ["```\n" + line + " "] + (if st.codeSnippet then ["\n"] else []))
  {
    SeenAsCut(st, raw);
    var line := Cut(st, raw);
    var plain := "```\n" + line + " ";
    StripFirst(plain);
    ClosingBranch(st, Indent(raw), line, out);
    StepBy(st, raw, out, (st.(literalBlock := false), out + [plain], plain));
    UnquotedSuffix(st.(literalBlock := false), plain, out + [plain]);
  }

  /** Inside a quote a visible line is appended stripped and followed by a
      space; the state is unchanged. The line is cut as the state says (so
      outside snippets and literal blocks it is `raw.strip()`), and a line
      break follows inside a snippet. */
  lemma QuoteLine(st: ParseState, raw: String, out: seq<String>)
    requires st.quoteBlock
    requires var line := Prepare(st, raw);
      && Strip(line) != [] && !IsHeader(line) && !StartsWith(Strip(line), "```") && !EndsWith(Strip(line), "::")
    ensures var line := if st.codeSnippet || st.literalBlock then Drop(raw, st.snippetIndent) else LStrip(raw);
      Step(st, raw, out) == (st, out + [Strip(line) + " "] + (if st.codeSnippet then ["\n"] else []))
  {
    SeenAsCut(st, raw);
    var line := Cut(st, raw);
    assert |Strip(line)| <= |LStrip(line)| <= |line|;
    QuoteBranch(st, Indent(raw), line, out);
    StepBy(st, raw, out, (st, out + [Strip(line) + " "], line));
    QuotedSuffix(st, line, out + [Strip(line) + " "]);
  }

  /** Inside a quote a blank line leaves a space. Outside snippets and
      literal blocks the cut line is empty, so a new quoted line starts;
      inside a snippet a line break follows instead; in a literal block the
      line keeps the characters past the snippet indentation, and then
      nothing follows. */
  lemma QuoteBlankLine(st: ParseState, raw: String, out: seq<String>)
    requires st.quoteBlock && AllSpaces(raw)
    ensures Step(st, raw, out) ==
      (st, out + [" "] + (if st.codeSnippet then ["\n"] else if st.literalBlock && st.snippetIndent < |raw| then [] else ["\n>"]))
  {
    var line := Cut(st, raw);
    BlankCut(st, raw);
    BlankLead(line);
    PrepareIsCut(st, raw);
    QuoteBlankBranch(st, Indent(raw), line, out);
    StepBy(st, raw, out, (st, out + [" "], line));
    QuotedSuffix(st, line, out + [" "]);
  }

  /** A blank line cut by the state stays blank, and is empty unless a
      snippet or literal block cuts less than the whole line. */
  lemma BlankCut(st: ParseState, raw: String)
    requires AllSpaces(raw)
    ensures AllSpaces(Cut(st, raw))
    ensures (Cut(st, raw) == []) == !((st.codeSnippet || st.literalBlock) && st.snippetIndent < |raw|)
  {
    BlankStrip(raw);
    SuffixSpaces(raw, Cut(st, raw));
  }

  /** In a quote a blank line contributes a single space. */
  lemma QuoteBlankBranch(st: ParseState, indent: nat, line: String, out: seq<String>)
    requires st.quoteBlock && AllSpaces(line)
    ensures Branch(st, indent, line, out) == (st, out + [" "], line)
  {
    BlankStrip(line);
    BlankLead(line);
    assert Strip(line) + " " == " ";
    QuoteBranch(st, indent, line, out);
  }

  /** A blank line outside snippets and quotes changes no state and ends the
      paragraph: a fragment of whitespace, then a blank line. */
  lemma BlankLine(st: ParseState, raw: String, out: seq<String>)
    requires !st.codeSnippet && !st.quoteBlock && AllSpaces(raw)
    ensures var out' := Step(st, raw, out).1;
      && Step(st, raw, out).0 == st
      && |out'| == |out| + 2 && out'[..|out|] == out
      && AllSpaces(out'[|out|]) && out'[|out| + 1] == "\n\n"
  {
    BlankStrip(raw);
    var line := Cut(st, raw);
    assert raw[0..] == raw;
    assert AllSpaces(line);
    PrepareIsCut(st, raw);
    var b := Branch(st, Indent(raw), line, out);
    BlankBranch(st, Indent(raw), line, out);
    BlankStrip(b.2);
    StepBy(st, raw, out, b);
    AppendTwo(out, b.1[|out|], "\n\n");
  }

  /** A bullet item outside quotes is kept, on a new line indented as in the
      docstring. The item is the line as cut: stripped on the left outside
      snippets and literal blocks, but cut only by the snippet indentation
      inside one, so that there its indentation is written twice. */
  lemma BulletLine(st: ParseState, raw: String, out: seq<String>)
    requires !st.quoteBlock
    requires var line := Prepare(st, raw); StartsWith(Strip(line), "-") && !EndsWith(Strip(line), "::")
    ensures var line := if st.codeSnippet || st.literalBlock then Drop(raw, st.snippetIndent) else LStrip(raw);
      Step(st, raw, out) == (st, out + ["\n" + Spaces(Indent(raw)) + line] + (if st.codeSnippet then ["\n"] else []))
  {
    DashSeen(Prepare(st, raw));
    SeenAsCut(st, raw);
    var line := Cut(st, raw);
    var item := "\n" + Spaces(Indent(raw)) + line;
    BulletBranch(st, Indent(raw), line, out);
    StepBy(st, raw, out, (st, out + [item], line));
    VisibleSuffix(st, line, out + [item]);
  }

  /** Inside an argument list and outside literal blocks, a line indented
      past the section that the typed-argument pattern reads becomes a bullet
      with the name in bold code and the type in parentheses, and sets the
      argument indentation; a line break follows inside a snippet. */
  lemma TypedArgumentLine(st: ParseState, raw: String, out: seq<String>, m: TypedArgMatch)
    requires !st.literalBlock && !st.quoteBlock && st.argList
    requires Indent(raw) > st.blockIndent
    requires var line := Cut(st, raw); IsTypedArgMatch(line, m) && !EndsWith(Strip(line), "::")
    ensures Step(st, raw, out) ==
      (st.(argIndent := Indent(raw)), out + [ArgBullet(st.blockIndent, TypedArgMarkdown(m))] + (if st.codeSnippet then ["\n"] else []))
  {
    var line := Cut(st, raw);
    var bullet := ArgBullet(st.blockIndent, TypedArgMarkdown(m));
    TypedArgLineSeen(st, line, m);
    PrepareIsCut(st, raw);
    TypedArgBranch(st, Indent(raw), line, out, m);
    ArgumentStep(st, raw, out, bullet);
  }

  /** Inside an argument list and outside literal blocks, a line indented
      past the section that reads as "name: text" (and is not itself a
      header) becomes a bullet with the name in bold code, and sets the
      argument indentation; a line break follows inside a snippet. */
  lemma BareArgumentLine(st: ParseState, raw: String, out: seq<String>, m: ArgStartMatch)
    requires '\n' !in raw && !st.literalBlock && !st.quoteBlock && st.argList
    requires Indent(raw) > st.blockIndent
    requires var line := Cut(st, raw); IsArgStartMatch(line, m) && !EndsWith(Strip(line), "::")
    requires !(Lower(m.stars + m.name + m.gap + ":") in AllKeywords && |m.rest| <= 2)
    ensures Step(st, raw, out) ==
      (st.(argIndent := Indent(raw)), out + [ArgBullet(st.blockIndent, ArgStartMarkdown(m))] + (if st.codeSnippet then ["\n"] else []))
  {
    var line := Cut(st, raw);
    var bullet := ArgBullet(st.blockIndent, ArgStartMarkdown(m));
    CutNoNewline(st, raw);
    BareArgLineSeen(st, line, m);
    PrepareIsCut(st, raw);
    BareArgBranch(st, Indent(raw), line, out, m);
    ArgumentStep(st, raw, out, bullet);
  }

  /** An argument bullet, once the branch is known, is followed only by the
      snippet's line break. */
  lemma ArgumentStep(st: ParseState, raw: String, out: seq<String>, bullet: String)
    requires Prepare(st, raw) == Cut(st, raw) && Strip(Cut(st, raw)) != []
    requires Branch(st, Indent(raw), Cut(st, raw), out) == (st.(argIndent := Indent(raw)), out + [bullet], Cut(st, raw))
    ensures Step(st, raw, out) == (st.(argIndent := Indent(raw)), out + [bullet] + (if st.codeSnippet then ["\n"] else []))
  {
    var line := Cut(st, raw);
    StepBy(st, raw, out, (st.(argIndent := Indent(raw)), out + [bullet], line));
    VisibleSuffix(st.(argIndent := Indent(raw)), line, out + [bullet]);
  }

  /** Inside an argument list, a line indented past the current argument
      that starts no new argument (no argument pattern reads it, or a literal
      block is open) continues the description after a space. The line is
      the raw line cut as the state says: by the snippet indentation inside a
      snippet or a literal block, of its indentation otherwise. */
  lemma ContinuationLine(st: ParseState, raw: String, out: seq<String>)
    requires st.argList && Indent(raw) > st.blockIndent && Indent(raw) > st.argIndent
    requires var line := Prepare(st, raw);
      && PassesOver(st, line)
      && (st.literalBlock || (MatchTypedArg(line).None? && MatchArgStart(line).None?))
    ensures var line := if st.codeSnippet || st.literalBlock then Drop(raw, st.snippetIndent) else LStrip(raw);
      Step(st, raw, out) ==
        (st, out + [" " + line] + (if st.codeSnippet then ["\n"] else if Strip(line) == [] then ["\n\n"] else []))
  {
    SeenAsCut(st, raw);
    var line := Cut(st, raw);
    ContinuationBranch(st, Indent(raw), line, out);
    StepBy(st, raw, out, (st, out + [" " + line], line));
    UnquotedSuffix(st, line, out + [" " + line]);
  }

  /** Any other line indented past the section is copied as it is cut, with
      nothing before or after it (a line break inside a snippet, a paragraph
      break after a blank one). Consecutive such lines under a section that
      is no argument list, or inside a literal block, therefore run
      together. */
  lemma PassThroughLine(st: ParseState, raw: String, out: seq<String>)
    requires Indent(raw) > st.blockIndent
    requires var line := Prepare(st, raw);
      && PassesOver(st, line)
      && !(st.argList && !st.literalBlock && (MatchTypedArg(line).Some? || MatchArgStart(line).Some?))
      && !(st.argList && Indent(raw) > st.argIndent)
    ensures var line := if st.codeSnippet || st.literalBlock then Drop(raw, st.snippetIndent) else LStrip(raw);
      Step(st, raw, out) ==
        (st, out + [line] + (if st.codeSnippet then ["\n"] else if Strip(line) == [] then ["\n\n"] else []))
  {
    SeenAsCut(st, raw);
    var line := Cut(st, raw);
    PassThroughBranch(st, Indent(raw), line, out);
    StepBy(st, raw, out, (st, out + [line], line));
    UnquotedSuffix(st, line, out + [line]);
  }

  /** Outside literal blocks and quotes, a visible line no deeper than the
      section is plain text: cut (stripped on the left outside a snippet)
      and followed by a space, so that consecutive lines join into one
      paragraph. */
  lemma PlainLine(st: ParseState, raw: String, out: seq<String>)
    requires !st.literalBlock && Indent(raw) <= st.blockIndent
    requires var line := Prepare(st, raw); Strip(line) != [] && PassesOver(st, line)
    ensures var line := if st.codeSnippet then Drop(raw, st.snippetIndent) else LStrip(raw);
      Step(st, raw, out) == (st, out + [line + " "] + (if st.codeSnippet then ["\n"] else []))
  {
    SeenAsCut(st, raw);
    var line := Cut(st, raw);
    var plain := line + " ";
    VisibleAppend(line, " ");
    ProseBranch(st, Indent(raw), line, out);
    StepBy(st, raw, out, (st, out + [plain], plain));
    UnquotedSuffix(st, plain, out + [plain]);
  }
}
