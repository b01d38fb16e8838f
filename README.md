# lazydocs docstring converter, modelled in Dafny

lazydocs turns the Google-style docstrings of a Python package into
Markdown pages. Its core is `_doc2md`. This is a single pass over the lines
of a docstring. A handful of variables carry over from one line to the next
(block indentation, argument indentation, whether an argument list, a
literal block, a fenced snippet or a quote is open, and the snippet
indentation). Each line is classified by an `if/elif` chain built on five
regular expressions and appends fragments to an output list. The output is
then joined, cut into lines, and right-trimmed line by line. Around the
converter sit small helpers:
- the anchor of a header;
- the tests that leave a module or an object out of the documentation;
- the one-line summary of a docstring;
- the ordering of members by source line.

The project has four modules:

- `Text` (`text.dfy`): the Python `str` operations the code relies on, on
  `seq<char>`. These are `split`, `lstrip`/`rstrip`/`strip` with
  `str.isspace()`'s full whitespace set, `lower`, `replace`, `splitlines`
  with its full set of line boundaries, and `join`.
- `DocPatterns` (`doc_patterns.dfy`): the five regular expressions, each
  read on one line.
  - The three header patterns become an ordered alternation of keywords
    followed by `.{0,2}$`.
  - The two argument patterns become matcher functions. A matcher returns
    a reading of the line (its groups) exactly when the pattern matches.
    It is proved sound, complete, and to find the only reading there is.
- `DocToMarkdown` (`doc_to_markdown.dfy`): `_doc2md` itself.
  - `Doc2Md` is the imperative loop. It carries the seven loop variables
    in one `ParseState` record. `ConvertLine` is one iteration.
    `Dispatch` is the `if/elif` chain, on the seven variables unpacked.
  - Each method is proved equal to a pure function: `Step`/`Branch`,
    folded over the lines by `RunLines` and finished by `Finish`.
  - Lemmas then state, line kind by line kind, what one iteration does to
    the state and the output, and what holds over a whole run.
- `Generation` (`generation.dfy`): `_get_anchor_tag`, `_is_module_ignored`
  (a method with the source's loop and early returns), the string test of
  `_is_object_ignored`, `_get_doc_summary` and `_order_by_index`.

The model follows the code where the code behaves differently from how the
converter is usually described:

- An argument name is emitted as HTML bold around inline code
  (``<b>`name`</b>``), not as Markdown `**name**`.
- The open blocks are not exclusive. A literal block can be open inside an
  argument list, and a snippet inside either. Only an argument list and a
  quote exclude each other, which `RunValid` proves.
- Plain-text lines are not kept as separate lines. Each is followed by a
  space and no newline, so consecutive lines run into one paragraph
  (`PlainLine`).
- A doctest line `>>> x` becomes the fence ```` ``` x``` ```` (the space
  stays), and every
  fence line toggles the snippet state. A doctest line therefore opens a
  snippet that stays open until the next fence (`DoctestLine`); it is not
  scoped to one line.
- The literal-block trigger replaces every `::` of the line with
  ``:\n``` ``, not only the final one (`LiteralLine`).
- A line indented under a section that is no argument list (such as
  `Example:`), or inside a literal block, is copied with no separator after
  it. Outside a snippet consecutive such lines therefore run together:
  `Example:` followed by `    foo` and `    bar` gives `foobar`
  (`PassThroughLine`).
- Inside a quote, a blank line does not fold into the paragraph. It leaves
  a space and starts a new quoted line (`QuoteBlankLine`), except inside a
  snippet, or in a literal block where the cut line keeps some whitespace.
- A bullet inside a snippet or literal block keeps its indentation after
  the indentation already written before it (`BulletLine`).

`Step`, `Branch` and `RunLines` are total functions. For a line that holds no
`"\n"`, the header and argument predicates agree with the regular
expressions, and every line `split("\n")` yields is such a line.

## Model

| member | source | states |
|---|---|---|
| DocToMarkdown.Doc2Md | src/lazydocs/generation.py:347-469 | The loop over `doc.split("\n")`, carrying the seven loop variables in one `ParseState` record, returns `Render(doc)`: the fold of one `Step` per line, finished by the join/splitlines/rstrip pass. No line of the result ends in whitespace. |
| DocToMarkdown.ConvertLine | src/lazydocs/generation.py:372-464 | One iteration does what `Step` does to the state and the output list: cut the line, rewrite a doctest prompt, run the chain, append the suffix. |
| DocToMarkdown.Dispatch | src/lazydocs/generation.py:383-457 | The `if/elif` chain with its assignments and appends gives the same state, output and line as `Branch`. |
| DocToMarkdown.Cut | src/lazydocs/generation.py:373-377 | The line the chain sees is a suffix of the raw line. Outside snippets and literal blocks it loses exactly the indentation. Inside one it loses exactly the snippet indentation, or everything when the line is shorter. |
| DocToMarkdown.Prepare | src/lazydocs/generation.py:379-381 | A line that starts with `>>>` becomes a line that starts and ends with three backticks. No line gains a newline. |
| DocToMarkdown.Branch | src/lazydocs/generation.py:383-457 | Every branch of the chain appends at least one fragment and keeps the fragments already there. |
| DocToMarkdown.Suffix | src/lazydocs/generation.py:459-464 | After the chain, at most one fragment is appended: `"\n"`, `"\n\n"` or `"\n>"`. Inside a snippet one always is. |
| DocToMarkdown.RenderLines | src/lazydocs/generation.py:467-469 | Every `"\n"`-separated line of the converter's result is right-trimmed and holds no line boundary. |
| DocToMarkdown.RunValid | src/lazydocs/generation.py:363-464 | After any number of lines, the snippet indentation is 0 whenever no snippet is open, and an argument list and a quote are never open together. |
| DocToMarkdown.StepValid | src/lazydocs/generation.py:372-464 | One iteration preserves that invariant. |
| DocToMarkdown.RunAppendOnly | src/lazydocs/generation.py:372-464 | The output list after the first `i` lines is a prefix of the output after all lines: fragments are only appended. |
| DocToMarkdown.StepExtends | src/lazydocs/generation.py:383-464 | One iteration only appends to the output list. |
| DocToMarkdown.StepKeepsSection | src/lazydocs/generation.py:383-457 | A line that is no header keeps the block indentation, the argument-list flag and the quote flag. |
| DocToMarkdown.HeaderLine | src/lazydocs/generation.py:383-404 | A header line sets the block indentation to the line's indentation. It opens an argument list exactly when the text up to the first colon, lower-cased, is a list keyword, and a quote exactly when it is a note keyword. It closes a literal block with a fence and appends the bold header (`"\n\n**" + line.strip() + "**\n"`), then `"\n>"` for a note, then `"\n"` when a snippet is open. |
| DocToMarkdown.HeaderStep | src/lazydocs/generation.py:383-404 | A header line gives the new state and the output the header branch defines, in terms of which of the three header patterns it matches, followed by `"\n"` only inside a snippet. |
| DocToMarkdown.FenceLine | src/lazydocs/generation.py:405-415 | A line whose stripped text starts with three backticks closes an open snippet, resets its indentation and appends the line alone. Otherwise it opens a snippet at the raw line's indentation and appends a newline, the line and a newline. |
| DocToMarkdown.DoctestLine | src/lazydocs/generation.py:379-381 | A line starting with `>>>` becomes a line that starts and ends with a fence, and it flips whether a snippet is open. |
| DocToMarkdown.SnippetLine | src/lazydocs/generation.py:376-377 | Inside a snippet, the chain sees a line that is neither a header nor a fence as the raw line with its first `snippet_indent` characters cut off. The line keeps the snippet open with its indentation, and the output grows and ends with `"\n"`. |
| DocToMarkdown.LiteralLine | src/lazydocs/generation.py:416-419 | A line whose stripped text ends with `::` opens a literal block and appends the line with every `::` replaced by a colon and a fence, followed by `"\n"` inside a snippet. |
| DocToMarkdown.LiteralClosed | src/lazydocs/generation.py:450-464 | In a literal block, a visible line at or left of the block indentation that is no header, fence, bullet or `::` line, outside a quote, closes the block. It is cut by the snippet indentation, appended after a closing fence and followed by a space, then by `"\n"` when a snippet is open. |
| DocToMarkdown.QuoteLine | src/lazydocs/generation.py:420-464 | Inside a quote, a visible line that is no header, fence or `::` line is appended stripped and followed by a space; the state is unchanged. The line is first cut as the state says, and `"\n"` follows inside a snippet. |
| DocToMarkdown.QuoteBlankLine | src/lazydocs/generation.py:420-464 | Inside a quote, a blank line appends a space; the state is unchanged. Then comes `"\n"` inside a snippet; nothing in a literal block whose cut line is not empty; `"\n>"` (a new quoted line) otherwise. |
| DocToMarkdown.BlankLine | src/lazydocs/generation.py:450-462 | Outside snippets and quotes, a blank line leaves the state unchanged and appends a whitespace fragment and then `"\n\n"`. |
| DocToMarkdown.BulletLine | src/lazydocs/generation.py:422-464 | Outside a quote, a line whose stripped text starts with `-` is appended on a new line after its own indentation; the state is unchanged. Inside a snippet or literal block only the snippet indentation is cut off, so the rest of the line's indentation appears twice; `"\n"` follows inside a snippet. |
| DocToMarkdown.TypedArgumentLine | src/lazydocs/generation.py:425-434 | In an argument list and outside literal blocks, a line deeper than the block that the typed-argument pattern reads as `m` sets the argument indentation. It appends a bullet at the block indentation (`"\n" + " " * blockindent + " - "`) with ``<b>`name`</b> (type): description``, followed by `"\n"` inside a snippet. |
| DocToMarkdown.BareArgumentLine | src/lazydocs/generation.py:435-443 | In an argument list and outside literal blocks, a deeper line read by the bare-argument pattern (and not a header) sets the argument indentation. It appends a bullet with ``<b>`name`</b>: `` and the text after the colon, followed by `"\n"` inside a snippet. |
| DocToMarkdown.ContinuationLine | src/lazydocs/generation.py:444-447 | In an argument list, a line deeper than the current argument that starts no new argument (neither pattern reads it, or a literal block is open) is appended after a space. Inside a snippet or literal block the line loses the snippet indentation, otherwise its own indentation. A line break follows inside a snippet, a paragraph break after a blank line. |
| DocToMarkdown.PassThroughLine | src/lazydocs/generation.py:425-464 | Outside a quote, any other line deeper than the block that is no header, fence, bullet or `::` line is appended exactly as cut, with nothing before or after it except the snippet's line break or a blank line's paragraph break. The state is unchanged. |
| DocToMarkdown.PlainLine | src/lazydocs/generation.py:450-457 | Outside literal blocks and quotes, a visible line no deeper than the block that is no header, no fence, no bullet and does not end in `::` is appended cut and followed by a space. Outside a snippet it is stripped on the left; inside one it is cut by the snippet indentation and followed by `"\n"`. |
| DocPatterns.KeywordLineSome | src/lazydocs/generation.py:28-35 | The alternation of a header pattern matches exactly when one of its keywords does. |
| DocPatterns.KeywordsWellFormed | src/lazydocs/generation.py:28-35 | Every header keyword is lower-case ASCII letters closed by a colon. |
| DocPatterns.HeaderKeyword | src/lazydocs/generation.py:28-35 | A header pattern matches a line exactly when the text up to the first colon, lower-cased, is one of its keywords and at most two characters follow. |
| DocPatterns.HeaderAtFirstColon | src/lazydocs/generation.py:28-35 | A line is a section header exactly when the text up to its first colon, lower-cased, is any header keyword and at most two characters follow. |
| DocPatterns.HeaderHasColon | src/lazydocs/generation.py:28-35 | Every header holds a colon. |
| DocPatterns.HeaderStartsWithLetter | src/lazydocs/generation.py:28-35 | A header starts with an ASCII letter. |
| DocPatterns.ListAndQuoteHeadersExclusive | src/lazydocs/generation.py:28-35 | No line matches both the argument-list pattern and the note pattern. |
| DocPatterns.FindCloseColon | src/lazydocs/generation.py:37 | Finds the first `"):"` that has at least two characters after it. No earlier position qualifies. |
| DocPatterns.MatchTypedArg | src/lazydocs/generation.py:37 | A match is a reading of the line: a non-empty name of `[\w\[\]_]`, whitespace, `(`, a type without `"):"`, `"):"`, and at least two more characters. |
| DocPatterns.TypedArgMatchComplete | src/lazydocs/generation.py:37 | Every reading of a line by the typed-argument pattern is the one the matcher returns, so there is exactly one. |
| DocPatterns.MatchArgStart | src/lazydocs/generation.py:38 | A match is a reading of the line: stars, a non-empty name, whitespace, a colon, and the rest. |
| DocPatterns.ArgStartMatchComplete | src/lazydocs/generation.py:38 | Every reading by the bare-argument pattern is the one the matcher returns. |
| DocPatterns.ArgStartNotTyped | src/lazydocs/generation.py:37-38 | A line the bare-argument pattern reads is not matched by the typed-argument pattern. |
| DocPatterns.ArgStartHeader | src/lazydocs/generation.py:28-38 | A bare-argument line is a header exactly when its head up to the colon, lower-cased, is a header keyword and at most two characters follow. |
| DocPatterns.TypedArgNotHeader | src/lazydocs/generation.py:28-37 | A typed-argument line is never a section header. |
| DocPatterns.NoColonPlainText | src/lazydocs/generation.py:28-38 | A line without a colon matches none of the five patterns. |
| DocPatterns.BlankNoArgument | src/lazydocs/generation.py:37-38 | A blank line starts no argument. |
| Text.Split | src/lazydocs/generation.py:372 | `split` on one character is never empty, no piece holds the separator, and joining the pieces gives the string back. |
| Text.SplitJoin | src/lazydocs/generation.py:467 | Splitting undoes joining when no piece holds the separator. |
| Text.LStrip | src/lazydocs/generation.py:373-375 | `lstrip` gives the suffix after the leading whitespace; it starts with a visible character or is empty. |
| Text.RStrip | src/lazydocs/generation.py:467 | `rstrip` gives the prefix before the trailing whitespace; it ends with a visible character or is empty. |
| Text.SplitLines | src/lazydocs/generation.py:467 | `splitlines` gives lines without line boundaries. |
| Text.SplitLinesOne | src/lazydocs/generation.py:467 | A non-empty text without boundaries is one line. |
| Text.SplitLinesBreak | src/lazydocs/generation.py:467 | The first boundary ends the first line, and the rest is split the same way. A `"\r"` counts on its own when no `"\n"` follows it. |
| Text.SplitLinesCRLF | src/lazydocs/generation.py:467 | `"\r\n"` is a single boundary. |
| Text.ConcatAppend | src/lazydocs/generation.py:467 | `"".join` of two lists of fragments is the two joins one after the other. |
| Text.StripEmpty | src/lazydocs/generation.py:461 | A line strips to the empty string exactly when it is all whitespace. |
| Text.IndentLeading | src/lazydocs/generation.py:373 | The indentation counts the leading whitespace: those characters are whitespace and the next, if any, is not. |
| Text.ReplaceAll | src/lazydocs/generation.py:381 | `replace` builds its result only from characters of the string and of the replacement. |
| Text.ReplaceAllAbsent | src/lazydocs/generation.py:419 | `replace` changes nothing in a string where the pattern does not occur. |
| Text.ReplaceAllLeading | src/lazydocs/generation.py:381 | An occurrence at the front is replaced, and the rest is replaced the same way. |
| Text.ReplaceAllSkip | src/lazydocs/generation.py:419 | Where the pattern does not start the string, `replace` keeps the first character and goes on with the rest. |
| Text.Lower | src/lazydocs/generation.py:339 | `lower` maps each character by its ASCII lower case and keeps the length. |
| Generation.AnchorTag | src/lazydocs/generation.py:338-344 | The anchor has only `a-z`, `0-9`, `-` and `_`, and it is no longer than the header. |
| Generation.KeepSlugChars | src/lazydocs/generation.py:343 | Removing the characters outside `[a-zA-Z0-9-_]` leaves only characters of that class, no more than there were, and the result has no upper-case letter when the input has none. |
| Generation.KeepSlugCharsAppend | src/lazydocs/generation.py:343 | The filter works character by character: filtering a concatenation is filtering its parts. |
| Generation.KeepSlugCharsDrops | src/lazydocs/generation.py:343 | A character outside `[a-zA-Z0-9-_]` is removed and nothing else around it changes. |
| Generation.AnchorTagFixed | src/lazydocs/generation.py:338-344 | A string of anchor characters is its own anchor. |
| Generation.AnchorTagIdempotent | src/lazydocs/generation.py:338-344 | Taking the anchor of an anchor changes nothing. |
| Generation.AnchorTagJoins | src/lazydocs/generation.py:339-343 | Two anchor words with one whitespace character between them give the words joined by a hyphen. |
| Generation.AnchorTagDropsPunctuation | src/lazydocs/generation.py:338-344 | A character that is neither whitespace nor of the slug class between two anchor words disappears, joining the words. |
| Generation.IsModuleIgnored | src/lazydocs/generation.py:317-330 | The method's loop with early returns answers exactly `ModuleIgnored`: the last dotted component starts with `_`, or some list entry is the name or a package of it. |
| Generation.LastPiece | src/lazydocs/generation.py:319 | `split(".")[-1]`: a dot-free suffix of the name that is the whole name or follows a dot. |
| Generation.LastPieceIsTail | src/lazydocs/generation.py:319 | The last component of `a + "." + b`, for a dot-free `b`, is `b`. |
| Generation.SubmoduleIgnored | src/lazydocs/generation.py:323-328 | Every submodule of an ignored module is ignored. |
| Generation.PrivateModuleIgnored | src/lazydocs/generation.py:319-320 | A module whose own name starts with `_` is ignored, whatever its package and the list. |
| Generation.CoversAtDot | src/lazydocs/generation.py:323-328 | An entry covers a name only when it is a prefix of the name ending at the name's end or at a dot. |
| Generation.ReplaceSpaces | src/lazydocs/generation.py:309-310 | `replace(" ", "")` deletes exactly the space characters. |
| Generation.MarkerNormalized | src/lazydocs/generation.py:309 | The ignore instruction, without spaces and lower-cased, is `lazydocs:ignore`. |
| Generation.ObjectIgnoredMeans | src/lazydocs/generation.py:307-314 | An object is ignored exactly when its docstring, without spaces and lower-cased, contains the normalised instruction. |
| Generation.NormalizedAppend | src/lazydocs/generation.py:309-310 | Normalising distributes over concatenation. |
| Generation.ObjectIgnoredInContext | src/lazydocs/generation.py:307-314 | Text added before or after an ignored docstring keeps it ignored. |
| Generation.ObjectIgnoredSpaces | src/lazydocs/generation.py:307-314 | Inserting a space anywhere in a docstring does not change whether it is ignored. |
| Generation.DocSummary | src/lazydocs/generation.py:333-335 | The summary is the docstring's prefix up to the first newline: a prefix with no newline, followed by a newline or the end. |
| Generation.DocSummaryFirstLine | src/lazydocs/generation.py:333-335 | The summary of `first + "\n" + rest` is `first`. |
| Generation.InsertByKey | src/lazydocs/generation.py:230 | Inserting a later position after the positions whose key is not larger keeps the order stable and adds exactly that position. |
| Generation.SortedPositions | src/lazydocs/generation.py:230 | `sorted(range(n), key=index.__getitem__)`: a stable key order of exactly the positions `0 .. n-1`. |
| Generation.StableOrderUnique | src/lazydocs/generation.py:230 | Two stable key orders of the same positions are equal, so the ordering is determined by the keys. |
| Generation.OrderByIndex | src/lazydocs/generation.py:228-231 | The result is `objs` picked along a stable key order of all positions of `index`. |
| Generation.OrderByIndexPermutes | src/lazydocs/generation.py:228-231 | The result holds the first `len(index)` objects, each as often as there. |
| Generation.OrderByIndexUnique | src/lazydocs/generation.py:228-231 | Any stable key order of all positions picks exactly the list `_order_by_index` returns. |

## Left out

- Reading docstrings from live objects (`_get_docstring`, `inspect.getdoc`, the `__doc__` attribute): the model starts from the docstring text.
- Reflection and imports, the page templates (`func2md`, `class2md`, `module2md` and their helpers), `to_md_file` and `generate_docs`. These are file and network I/O, subprocesses, `mdformat` and dynamic imports, outside the converter.
- Case folding is ASCII only: non-ASCII case folding is not modelled. `str.lower()` and `re.IGNORECASE` also fold characters such as the Kelvin sign or `İ`; the model folds only `A`-`Z`.
- In the argument patterns `\w` is read as ASCII letters, digits and `_`. Python also counts non-ASCII letters and digits.
- The sorting algorithm: the algorithm `sorted` runs (Timsort) is not modelled. The ordering is built by insertion and proved to be the only stable key order, which is all `sorted` promises.
- Generation.OrderByIndex: requires `len(index) <= len(objs)`. With fewer objects the comprehension raises `IndexError`, which is not modelled.
- Generation.ObjectIgnoredMeans: `_is_object_ignored` is modelled only as its string test on the docstring text.
- Regex matching on lines that hold a newline: `Step` is only related to the patterns on newline-free lines, which are the only lines `split("\n")` produces.
