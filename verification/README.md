# Docusaurus-style admonitions for Obsidian, modelled in Dafny

The plugin turns Docusaurus admonition syntax into styled containers in two places.

- **Reading mode.** A post-processor walks the rendered paragraphs of a section. It replaces:
  - a GitHub callout `> [!TYPE] text`;
  - a single-line `:::type [Title] content :::`;
  - a multi-line block from `:::type [Title]` to a paragraph that is just `:::`.

  Paragraphs inside code are skipped.
- **Live preview.** A CodeMirror view plugin computes line decorations. It marks a line that opens an admonition as its start, the following lines as its content, and the next `:::` line as its end. Lines the editor's fence heuristic places inside code are skipped.

Five types exist: note, tip, important, warning and caution. Each can be switched on or off in the settings.

The project models all of this as pure functions over immutable values:

- **`text.dfy` (module `Text`).** JavaScript's `\s`, `String.prototype.trim`, and ASCII case folding.
- **`types.dfy` (module `Types`).** The five types, the settings record, and the default and custom titles.
- **`syntax.dfy` (module `Syntax`).** Character-level recognisers for the regular expressions of `main.ts`. These are:
  - the callout;
  - the `:::type(?:\s|$)` prefilter;
  - the single-line form;
  - the multi-line start;
  - the editor's start pattern.

  Each recogniser comes with a declarative grammar, the "shape", and lemmas in both directions: whatever is recognised has the shape, and whatever has the shape is recognised.

  The lazy, backtracking group `(?:\s*\[(.*?)\])?` is modelled once, as `TitleThen`. It tries each `]` in turn as the end of the title and falls back to "no title". It is parameterised by what must follow the group.
- **`reading.dfy` (module `Reading`).** The reading-mode scan.
  - A section is a sequence of paragraphs. Each paragraph has its `textContent` and its ancestor-or-self chain of elements (tag and class tokens).
  - The scan produces a list of blocks. A block is either an untouched paragraph (`Kept`) or an admonition container.
  - A container's body is either inline text or the paragraphs it takes in, in order (`Moved(from, to)`).
  - The blocks tile the paragraph indices.
  - `isInsideCodeBlock` is modelled as a method over the chain.
- **`editor.dfy` (module `Editor`).** The live-preview scan.
  - A document is its sequence of lines, and offsets are computed from line lengths. This lets the outer `pos < doc.length` loop be written literally.
  - The result is the list of `(line, type, role)` decorations in the order they are pushed.
  - `isInsideCodeBlockInEditor` is a method with the backward fence walk.
- **`scenarios.dfy` (module `Scenarios`).** Concrete inputs worked through both scans: a custom title, the callout, the glued `:::note[Title]`, nested starts, and fences.

## Model

| member | source | states |
|---|---|---|
| Text.Trim | main.ts:111 | the trimmed text is the slice between the leading and the trailing run of JavaScript white space; it neither starts nor ends with white space |
| Text.TrimEmpty | main.ts:111-112 | a paragraph's trimmed text is empty (and so skipped) exactly when the paragraph is all white space |
| Text.TrimIdempotent | main.ts:111 | trimming an already trimmed text changes nothing |
| Text.SpaceRunExact | main.ts:120 | a run of white space that stops at a non-space character is exactly what the greedy `\s*` consumes |
| Text.ToUpper | main.ts:135 | upper-casing keeps the length and upper-cases each ASCII letter in place, so the result equals the input up to case and holds no lower-case ASCII letter |
| Text.ToUpperCanonical | main.ts:120-135 | two texts are equal up to case, as the `i` flag compares them, exactly when their upper-cased forms are equal |
| Types.DefaultTitle | main.ts:135-213 | the default title is `type.toUpperCase()`: equal to the type name up to case, with no lower-case ASCII letter left |
| Types.DisplayTitle | main.ts:171-213 | the custom title or else `type.toUpperCase()`: a non-empty custom title wins and an absent or empty one falls back to the default title, so the shown title is never empty and is either the custom title or the type name up to case |
| Types.SetEnabled | main.ts:307-310 | a toggle sets exactly the toggled type's flag and leaves the other four as they were |
| Types.NamesPrefixFree | main.ts:153 | no type name is a prefix of another, so at most one alternative of the type alternation can match at a place |
| Syntax.OpeningUnique | main.ts:153-186 | at most one `:::type` opening starts a text |
| Syntax.MarkedType | main.ts:153-186 | finds the type whose `:::type` opens the text, and it is the only one |
| Syntax.PrefilterType | main.ts:153 | the prefilter yields type `t` exactly when the text starts with `:::t` followed by white space or the end of the text |
| Syntax.CalloutOpens | main.ts:120 | only a text starting with `>` is a callout |
| Syntax.TagUnique | main.ts:120 | at most one type name, in any letter case, followed by `]` stands at a place |
| Syntax.CalloutTag | main.ts:120 | the alternation finds a tag exactly when one of the five names, in any case and followed by `]`, stands there |
| Syntax.CalloutSound | main.ts:120 | every recognised callout is `>`, white space, `[!`, the type name in any case, `]` and the rest |
| Syntax.CalloutComplete | main.ts:120 | every text of that callout shape is recognised, with that type and that rest |
| Syntax.ClosesAtIff | main.ts:156 | `\s+:::$` matches at a place exactly when only white space, at least one character of it, lies between there and a final `:::` |
| Syntax.LazyBody | main.ts:156 | the lazy `[\s\S]+?` ends at the first place after at least one character where `\s+:::$` matches, or fails when there is none |
| Syntax.GreedyGapLargest | main.ts:156 | the greedy `\s+` gives back as few characters as it can: every content start after the chosen one, or after the opening when none works, fails to let the lazy body and the final `:::` match |
| Syntax.LazyBodyFinds | main.ts:156 | the first closing place after the minimum length is the one the lazy body picks |
| Syntax.GreedyGap | main.ts:156 | backtracking the greedy `\s+` before the body: the body starts inside the white space after the opening and ends at the first closing place after its first character; when no choice works, no place closes the text |
| Syntax.BodyFromSound | main.ts:156 | what `\s+([\s\S]+?)\s+:::$` captures splits the rest into white space, a non-empty body, white space and the final `:::` |
| Syntax.BodyFromComplete | main.ts:156 | every such split of the rest makes `\s+([\s\S]+?)\s+:::$` match |
| Syntax.BodyFromExact | main.ts:156 | a body that neither starts nor ends with white space is captured exactly |
| Syntax.TitleEnd | main.ts:156 | the lazy `(.*?)\]` tries the `]`s from left to right without crossing a line break and stops at the first one after which the rest matches |
| Syntax.TitleThen | main.ts:156 | a title is taken only from a `\s*[title]` clause whose `]` lets the rest match; without a title the rest matches right at the start; whenever the rest matches at the start, the whole matches |
| Syntax.TitleThenFirstCloser | main.ts:156 | a reported title ends at the first `]` after its `[` that lets the rest match, as the lazy `(.*?)` demands |
| Syntax.TitleThenPrefersTitle | main.ts:156 | when some title clause lets the rest match, the group is not skipped: a title is reported |
| Syntax.TitleThenExact | main.ts:156 | a title clause whose title holds no `]` and after which the rest matches is the one reported, with what the rest captures |
| Syntax.TitleThenBare | main.ts:156 | when no `[` follows the white space, the group is skipped and the rest is matched at the start |
| Syntax.TitleThenWeakens | main.ts:156 | when the title group matches before a stricter rest, it also matches before a weaker one |
| Syntax.SingleLineSound | main.ts:156 | every recognised single-line form is `:::type`, an optional `\s*[title]` without line breaks, white space, a non-empty content, white space and `:::`, with the reported type, title and content |
| Syntax.SingleLineComplete | main.ts:156 | every text of that single-line shape is recognised, with its type, and with a title whenever the shape has one |
| Syntax.SingleLineExactBare | main.ts:156 | an untitled single-line text whose content has no white space at either end and does not start with `[` yields exactly that content |
| Syntax.SingleLineTitledAt | main.ts:156 | a titled single-line text whose title holds no `]` yields exactly that title and content |
| Syntax.SingleLineMinLength | main.ts:156 | a single-line form is at least six characters longer than its opening `:::type`; the content may be a single white-space character |
| Syntax.MultiStartSound | main.ts:186 | every recognised multi-line start is `:::type` and, optionally, `\s*[title]` without line breaks ending the text, with the reported type and title |
| Syntax.MultiStartComplete | main.ts:186 | every text of that shape is recognised as a multi-line start with exactly that type and title |
| Syntax.PrefilterAgrees | main.ts:119-186 | a text that passes the prefilter for `t` starts with `:::` and is not a callout; any single-line or multi-line match of it has type `t` |
| Syntax.EditorStartSound | main.ts:367 | every line the editor takes for a start of type `t` is `:::t`, an optional `\s*[title]` without line breaks, and then the end of the line or white space |
| Syntax.EditorStartComplete | main.ts:367 | every line of that shape is taken for a start of type `t` |
| Syntax.PrefilterImpliesEditorStart | main.ts:367 | a line that passes the reading-mode prefilter also matches the editor's start pattern for the same type |
| Syntax.MultiStartIsEditorStart | main.ts:367 | a multi-line start line matches the editor's start pattern for its type |
| Syntax.SingleLineIsEditorStart | main.ts:367 | a single-line form matches the editor's start pattern for its type |
| Reading.Closest | main.ts:242-243 | `closest(tag)` from an element finds the nearest element with that tag on the way to the root, or none |
| Reading.IsInsideCodeBlock | main.ts:232-249 | the walk answers true exactly when some element from the paragraph up to the root has tag `CODE` or `PRE` or the exact class token `language-`, `hljs` or `cm-line` |
| Reading.FirstTerminatorSound | main.ts:190-201 | the forward search finds a paragraph that trims to `:::` with none before it; when it finds none, no later paragraph trims to `:::` |
| Reading.FirstTerminatorAt | main.ts:190-200 | the first paragraph after the start that trims to `:::` is the one the search finds |
| Reading.MultiBlock | main.ts:186-227 | a multi-line start becomes a container exactly when a terminator follows and the type is enabled; the container takes in the paragraphs strictly between the start and the first terminator |
| Reading.Step | main.ts:109-228 | what one iteration does: it stands for at least the paragraph at hand; a container has an enabled type and starts at a non-empty paragraph outside code; a single-line or callout container stands for one paragraph; a multi-line one ends at the first terminator |
| Reading.Scan | main.ts:109-228 | the blocks of the loop from paragraph `i` tile the paragraphs from `i` to the end |
| Reading.ScanSteps | main.ts:109-228 | each block of the loop is what one iteration makes of the paragraph it starts at |
| Reading.Process | main.ts:106-228 | the blocks of a section tile its paragraphs: consecutive, non-empty and covering them all |
| Reading.TilesIncreasing | main.ts:224-227 | the paragraphs of an earlier block all come before those of a later one, so what one container consumes never overlaps another |
| Reading.EachParagraphOnce | main.ts:106-228 | every paragraph belongs to exactly one block: no paragraph is lost or consumed twice |
| Reading.AdmonitionsEnabled | main.ts:124-205 | every container the scan produces has an enabled type |
| Reading.AllDisabledKeepsAll | main.ts:124-205 | with every type switched off, every paragraph is left untouched |
| Reading.BlockAt | main.ts:109-228 | each block of the section is one iteration at the paragraph it starts at |
| Reading.UntouchedKept | main.ts:111-154 | paragraphs that are empty after trimming, sit inside code, or are neither a callout nor pass the prefilter (a plain `> quote`, ordinary prose, `:::note[Title]`) are left untouched |
| Reading.CalloutParagraph | main.ts:119-147 | the callout form is tried first: an enabled one becomes a one-paragraph container with the upper-cased type as title and the trimmed rest as content; a disabled one is left untouched |
| Reading.DisabledTypeKept | main.ts:158-205 | a `:::` paragraph of a switched-off type is left untouched, whatever form it has, and the scan goes on with the very next paragraph |
| Reading.SingleLineParagraph | main.ts:156-180 | an enabled single-line form becomes a one-paragraph container with its custom title or the upper-cased type, and its content |
| Reading.MultiLineParagraph | main.ts:186-227 | an enabled multi-line start followed by a terminator becomes a container titled as the source says that takes in exactly the paragraphs strictly between the two, and the scan resumes after the terminator |
| Reading.MovedBetween | main.ts:190-227 | every container that takes in paragraphs ends at a terminator, and none of the paragraphs it takes in trims to `:::` |
| Reading.UnterminatedKept | main.ts:186-202 | a multi-line start with no later paragraph that trims to `:::` is left untouched, whether or not its type is enabled |
| Reading.NoTerminatorNoMove | main.ts:190-201 | when no later paragraph trims to `:::`, the block stands for its own paragraph only and the scan goes on with the next one |
| Editor.VisitedIff | main.ts:349-378 | `pos < doc.length` holds at a line's start exactly for the lines the loops visit: every line but an empty last one |
| Editor.FenceAboveIff | main.ts:424-444 | the backward walk answers "in code" exactly when the nearest earlier line that starts with three backticks exists and is not three backticks followed only by white space |
| Editor.IsInsideCodeBlockInEditor | main.ts:409-445 | a line is in code exactly when it is indented by four white-space characters or a tab, or the nearest fence above is not a bare fence; the first line is in code only when indented |
| Editor.StartFrom | main.ts:360-368 | a type found by the loop over the types is enabled and its start pattern matches the line; none is found only when no remaining type is both |
| Editor.StartTypeIff | main.ts:360-368 | a line starts a block of type `t` exactly when `t` is enabled and the line matches `t`'s start pattern |
| Editor.DecorateBlock | main.ts:377-399 | the offset-driven inner loop pushes exactly what the line-by-line inner scan pushes: content decorations up to the first line that trims to `:::`, which is pushed as the end, or up to the last visited line |
| Editor.ComputeAdmonitionDecorations | main.ts:343-406 | the offset-driven loops push exactly the decorations of the line-by-line scan, in the same order |
| Editor.InnerDecosIff | main.ts:377-399 | a decoration comes from the inner loop exactly when it marks a reached line after the start with no end line before it, as the end when the line trims to `:::` and as content otherwise |
| Editor.LineDecosIff | main.ts:353-401 | visiting a line adds exactly the start and block decorations of the type the line starts, when it is not code |
| Editor.DecosUpToIff | main.ts:348-404 | the outer loop up to a line pushes exactly the decorations of the blocks started at the lines before it |
| Editor.DecorationsIff | main.ts:343-406 | a decoration is produced exactly when some reached, non-code line starts an enabled block of its type and the decoration is that block's start, content or end |
| Editor.StartDecorated | main.ts:353-374 | a line gets a start decoration of type `t` exactly when it is reached, not code, `t` is enabled and the line matches `t`'s start pattern |
| Editor.DecorationsReached | main.ts:349-364 | every decoration has an enabled type and lies on a line the loops reach |
| Editor.OneStartPerLine | main.ts:360-401 | a line never gets start decorations of two different types |
| Scenarios.TitledSingleLine | main.ts:156-180 | `:::tip [Pro tip] Do X :::` becomes a tip container titled "Pro tip" with content "Do X" |
| Scenarios.WarningCallout | main.ts:119-147 | `> [!Warning] Be careful` becomes a warning container titled "WARNING" with content "Be careful" |
| Scenarios.GluedTitle | main.ts:153-186 | `:::note[Title]` fails the prefilter, although it is a multi-line start and opens an editor block |
| Scenarios.GluedTitleReading | main.ts:150-154 | in reading mode `:::note[Title]` is left untouched |
| Scenarios.GluedTitleEditor | main.ts:360-374 | in the editor `:::note[Title]` is decorated as a note start |
| Scenarios.LoneParagraphKept | main.ts:111-154 | a lone paragraph whose trimmed text is neither a callout nor passes the prefilter comes out untouched |
| Scenarios.QuoteKept | main.ts:120-151 | a lone `> quote` paragraph, which is no callout, comes out untouched |
| Scenarios.NestedReading | main.ts:186-227 | `:::note`, `:::tip`, `:::`: the note takes in the `:::tip` paragraph as content and ends at the `:::` |
| Scenarios.NestedReadingNoteOff | main.ts:186-227 | with notes off, the `:::note` paragraph is kept and the `:::tip` start takes the `:::` as its terminator, with an empty body |
| Scenarios.NestedEditor | main.ts:343-406 | in the editor, the `:::tip` line is decorated both as note content and as a tip start, and the `:::` line as the end of both blocks |
| Scenarios.BareFenceAbove | main.ts:433-435 | a start line below a bare three-backtick line counts as outside code and is decorated |
| Scenarios.LanguageFenceAbove | main.ts:438-441 | a start line below a three-backtick line with a language counts as inside code and is not decorated |

## Left out

- Plugin lifecycle: `onload`, `onunload`, and `updateEditorExtensions` with its swallowed exception (main.ts:72-86, 252-273). This is host wiring with no logic of its own.
- Settings persistence (`loadData`, `saveData`, the `Object.assign` merge over the defaults, main.ts:276-283) and the settings tab UI (main.ts:287-318). This is host I/O and UI. Only the effect of one toggle is modelled, as `Types.SetEnabled`.
- The `ViewPlugin` wrapper and its update triggers (main.ts:321-340). Recomputation is a call of the pure scan, so the model's `Editor.Decorations` stands for it.
- DOM construction: `createElement`, the class names, `cloneNode`, `replaceWith` and `remove` (main.ts:130-145, 166-178, 207-226). A container is modelled as a record of type, title, body and the paragraph range it replaces. "Moved" paragraphs stand for the deep copies appended in their original order.
- The sorting done by `Decoration.set(decorations, true)` (main.ts:405). The model keeps the decorations in the order they are pushed, duplicates included.
- Positions in the editor are line indices. Offsets appear only as `LineFrom` and `DocLength`, which drive the loops.
- Reading.Step: the `p.textContent?` optional chaining is not modelled. A paragraph always has text.
- Text.ToUpper: only ASCII letters are upper-cased. `toUpperCase` on the default titles only ever sees the five ASCII type names, so nothing else is needed.
- Syntax.CalloutTag: case-insensitive matching folds ASCII letters only. A non-unicode `i` flag never maps a non-ASCII character onto one of the ASCII letters of a type name.
- The callout's content is modelled as the trim of the rest after `]`. The source's `replace(/^>\s*\[![^\]]+\]\s*/, '').trim()` strips the same prefix, because `[^\]]+` stops at the same `]` the tag ended at, and the trailing `\s*` is subsumed by the trim.
- `.` in the title group refuses `\n`, `\r`, U+2028 and U+2029, the line terminators of ECMAScript.

## Quirks of the code

Each item below is what `main.ts` does; the model does the same.

- **A disabled multi-line start.** When the type of a multi-line start is switched off, the scan goes on with the very next paragraph, not after the terminator it located (main.ts:201-205, `Reading.DisabledTypeKept`). In `Scenarios.NestedReadingNoteOff`, the terminator of the switched-off note becomes the terminator of the tip inside it.
- **The editor's outer loop.** After the inner scan, the outer loop goes on with the line after the start line (main.ts:403). So content lines are visited again, and a line can carry several decorations (`Scenarios.NestedEditor`). The result is not a non-overlapping set.
- **The prefilter.** Reading mode only tries the `:::` forms on a paragraph matching `^:::(type)(?:\s|$)` (main.ts:150-154). This keeps `:::note[Title]` from ever being transformed in reading mode, while the editor decorates it (main.ts:367, `Scenarios.GluedTitle`).
- **Single-line content.** The single-line pattern accepts a single white-space character as the content when three or more white-space characters separate the opening from the closing `:::` (main.ts:156, `Syntax.SingleLineMinLength`).
- **The editor's fence walk.** A bare three-backtick line above means "not in code", whichever fence it closes or opens (main.ts:433-435, `Scenarios.BareFenceAbove`). So lines inside a fence opened by a bare fence are decorated.
- **Class tokens.** Class tokens are compared exactly (main.ts:239). `language-python` does not mark code; only the token `language-` itself does.
- **A trailing empty line.** The outer loop only visits a line whose start offset is below `doc.length`. So an empty last line is never visited (main.ts:349, `Editor.VisitedIff`).
