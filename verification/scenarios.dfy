/** Worked examples: concrete sections and documents, and what each pipeline makes of them. */
module Scenarios {
  import opened Text
  import opened Types
  import opened Syntax
  import opened Reading
  import opened Editor

  /** A paragraph outside any code element. */
  function Plain(content: string): Paragraph {
    Paragraph(content, [])
  }

  /** A title glued to the type name passes the editor's start pattern but not the reading-mode
      prefilter, although the multi-line pattern alone would accept it: the editor decorates a
      block that reading mode leaves as plain text. */
  lemma GluedTitle()
    ensures PrefilterType(":::note[Title]").None?
    ensures ParseMultiStart(":::note[Title]") == Some(MultiStart(Note, Some("Title")))
    ensures OpensEditorBlock(":::note[Title]", Note)
  {
    var text := ":::note[Title]";
    assert StartsWith(text, Opening(Note));
    assert TitleClauseAt(text, 7, 7, 13) by {
      assert text[7..7] == [];
      assert text[8..13] == "Title";
    }
    MultiStartWithTitle(text, Note, 7, "Title");
    var tails := TailTable(text, SpaceOrEnd);
    TailTableAt(text, SpaceOrEnd, 14);
    TitleThenPrefersTitle(text, tails, 7, 7, 13);
  }

  /** A tiling of `n` paragraphs whose first block reaches `n` has that block alone. */
  lemma OneBlock(r: seq<Block>, n: nat)
    requires Tiles(r, 0, n) && r != [] && Hi(r[0]) == n
    ensures r == [r[0]]
  {
    TilesBound(r, 0, n, 0);
  }

  lemma TwoBlocks(r: seq<Block>, n: nat)
    requires Tiles(r, 0, n) && 1 < |r| && Hi(r[1]) == n
    ensures r == [r[0], r[1]]
  {
    TilesBound(r, 0, n, 1);
  }

  /** A section of one paragraph whose trimmed text is no callout and fails the prefilter is left
      as it is. */
  lemma LoneParagraphKept(ps: seq<Paragraph>, s: Settings, text: string)
    requires ps == [Plain(text)] && ParseCallout(Trim(text)).None? && PrefilterType(Trim(text)).None?
    ensures Process(ps, s) == [Kept(0)]
  {
    UntouchedKept(ps, s, 0, 0);
    OneBlock(Process(ps, s), 1);
  }

  lemma QuoteText(text: string)
    requires text == "> quote"
    ensures Trim(text) == text && ParseCallout(text).None? && PrefilterType(text).None?
  {
    TrimOfTrimmed(text);
    assert SpaceRun(text, 1) == 1 by {
      assert IsSpace(text[1]) && !IsSpace(text[2]);
    }
    assert !StartsWith(text, Opening(Note)) by {
      assert text[0] != Opening(Note)[0];
    }
  }

  /** A plain quote is no callout, so reading mode leaves it alone. */
  lemma QuoteKept(ps: seq<Paragraph>, s: Settings)
    requires ps == [Plain("> quote")]
    ensures Process(ps, s) == [Kept(0)]
  {
    QuoteText(ps[0].content);
    LoneParagraphKept(ps, s, ps[0].content);
  }

  lemma GluedTrim(text: string)
    requires text == ":::note[Title]"
    ensures Trim(text) == text && !StartsWith(text, ">")
  {
    TrimOfTrimmed(text);
  }

  /** Reading mode leaves the glued title alone, whatever the settings. */
  lemma GluedTitleReading(ps: seq<Paragraph>, s: Settings)
    requires ps == [Plain(":::note[Title]")]
    ensures Process(ps, s) == [Kept(0)]
  {
    var text := ps[0].content;
    GluedTitle();
    GluedTrim(text);
    CalloutOpens(text);
    LoneParagraphKept(ps, s, text);
  }

  /** The editor decorates the glued title as the start of a note. */
  lemma GluedTitleEditor(d: Doc)
    requires d == [":::note[Title]"]
    ensures Deco(0, Note, Start) in Decorations(d, DefaultSettings)
  {
    GluedTitle();
    assert !IsSpace(d[0][..4][0]);
    StartDecorated(d, DefaultSettings, 0, Note);
  }

  lemma TitledTrim(text: string)
    requires text == ":::tip [Pro tip] Do X :::"
    ensures Trim(text) == text
  {
    TrimOfTrimmed(text);
  }

  lemma TitledPrefilter(text: string)
    requires text == ":::tip [Pro tip] Do X :::"
    ensures PrefilterType(text) == Some(Tip)
  {
    assert StartsWith(text, Opening(Tip));
  }

  lemma TitledParse(text: string)
    requires text == ":::tip [Pro tip] Do X :::"
    ensures ParseSingleLine(text) == Some(SingleLine(Tip, Some("Pro tip"), "Do X"))
  {
    assert StartsWith(text, Opening(Tip));
    assert TitleClauseAt(text, 6, 7, 15) by {
      assert text[6..7] == " " && text[8..15] == "Pro tip";
    }
    assert BodySplit(text, 16, 17, 21) by {
      assert text[16..17] == " " && text[21..22] == " " && text[22..] == Marker;
    }
    assert text[8..15] == "Pro tip" && text[17..21] == "Do X";
    SingleLineTitledAt(text, Tip, 7, 16, 17, 21, "Pro tip", "Do X");
  }

  /** A single-line form with a custom title becomes a container with that title and the content
      between the title and the closing `:::`. */
  lemma TitledSingleLine(ps: seq<Paragraph>, s: Settings)
    requires ps == [Plain(":::tip [Pro tip] Do X :::")] && Enabled(s, Tip)
    ensures Process(ps, s) == [Admonition(Tip, "Pro tip", Inline("Do X"), 0, 1)]
  {
    var text := ps[0].content;
    TitledTrim(text);
    TitledPrefilter(text);
    TitledParse(text);
    SingleLineParagraph(ps, s, 0, 0, Tip, SingleLine(Tip, Some("Pro tip"), "Do X"));
    OneBlock(Process(ps, s), 1);
  }

  lemma WarningTrim(text: string)
    requires text == "> [!Warning] Be careful"
    ensures Trim(text) == text
  {
    TrimOfTrimmed(text);
  }

  lemma WarningParse(text: string)
    requires text == "> [!Warning] Be careful"
    ensures ParseCallout(text) == Some(Callout(Warning, " Be careful"))
  {
    assert text == ">" + " " + "[!" + "Warning" + "]" + " Be careful";
    assert EqualsIgnoreCase("Warning", Name(Warning));
    CalloutComplete(text, Warning, " ", "Warning", " Be careful");
  }

  lemma WarningRest(rest: string)
    requires rest == " Be careful"
    ensures Trim(rest) == "Be careful"
  {
    TrimOfTrimmed(rest[1..]);
    assert SpaceRun(rest, 0) == 1;
  }

  /** A callout becomes a container titled by its upper-cased type, whatever the case of the tag,
      with the trimmed rest as its content. */
  lemma WarningCallout(ps: seq<Paragraph>, s: Settings)
    requires ps == [Plain("> [!Warning] Be careful")] && Enabled(s, Warning)
    ensures Process(ps, s) == [Admonition(Warning, "WARNING", Inline("Be careful"), 0, 1)]
  {
    var text := ps[0].content;
    WarningTrim(text);
    WarningParse(text);
    WarningRest(" Be careful");
    CalloutParagraph(ps, s, 0, 0, Callout(Warning, " Be careful"));
    OneBlock(Process(ps, s), 1);
    DefaultTitles();
  }

  /** A line that is exactly `:::name` is its own trim and is neither a callout, an end line nor
      indented. */
  lemma OpeningLineShape(text: string, t: AdmType)
    requires text == Opening(t)
    ensures Trim(text) == text && !StartsWith(text, ">") && !IsEnd(text) && !Indented(text)
  {
    assert text[0] == ':' && text[..4][0] == ':';
    assert !IsSpace(text[|text| - 1]) by {
      assert text[|text| - 1] == Name(t)[|Name(t)| - 1];
    }
    TrimOfTrimmed(text);
  }

  /** A line that is exactly `:::name` passes the prefilter and is a multi-line start without a
      title, and no single-line form. */
  lemma OpeningLineReading(text: string, t: AdmType)
    requires text == Opening(t)
    ensures PrefilterType(text) == Some(t) && ParseSingleLine(text).None?
    ensures ParseMultiStart(text) == Some(MultiStart(t, None))
  {
    assert StartsWith(text, Opening(t));
    assert PrefilterType(text) == Some(t);
    SingleLineMinLength(text);
    MultiStartBare(text, t);
  }

  /** A line that is exactly `:::name` starts a block in the editor. */
  lemma OpeningLineEditor(text: string, t: AdmType)
    requires text == Opening(t)
    ensures OpensEditorBlock(text, t)
  {
    assert StartsWith(text, Opening(t));
    assert PrefilterType(text) == Some(t);
    PrefilterImpliesEditorStart(text, t);
  }

  /** A line that is exactly `:::`. */
  lemma MarkerLine(text: string)
    requires text == Marker
    ensures Trim(text) == text && IsEnd(text)
  {
    TrimOfTrimmed(text);
  }

  /** What reading mode needs to know about a section of a start of type `a`, a start of type `b`
      and a terminator, all outside code. */
  predicate NestedFacts(ps: seq<Paragraph>, a: AdmType, b: AdmType) {
    && |ps| == 3 && NextTerminator(ps, 0, 2) && NextTerminator(ps, 1, 2)
    && MultiStartParagraph(ps[0], a, MultiStart(a, None)) && MultiStartParagraph(ps[1], b, MultiStart(b, None))
  }

  /** A note holding a `:::tip` line, closed by `:::`. */
  lemma NestedSection(ps: seq<Paragraph>)
    requires ps == [Plain(":::note"), Plain(":::tip"), Plain(":::")]
    ensures NestedFacts(ps, Note, Tip)
  {
    OpeningLineShape(ps[0].content, Note);
    OpeningLineReading(ps[0].content, Note);
    OpeningLineShape(ps[1].content, Tip);
    OpeningLineReading(ps[1].content, Tip);
    MarkerLine(ps[2].content);
  }

  lemma NestedFirst(ps: seq<Paragraph>, s: Settings, a: AdmType, b: AdmType)
    requires NestedFacts(ps, a, b) && Enabled(s, a)
    ensures Process(ps, s)[0] == Admonition(a, DefaultTitle(a), Moved(1, 2), 0, 3)
  {
    var r := Process(ps, s);
    assert Tiles(r, 0, 3) && Lo(r[0]) == 0;
    MultiLineParagraph(ps, s, 0, 0, a, MultiStart(a, None), 2);
  }

  lemma NestedProcess(ps: seq<Paragraph>, s: Settings, a: AdmType, b: AdmType)
    requires NestedFacts(ps, a, b) && Enabled(s, a)
    ensures Process(ps, s) == [Admonition(a, DefaultTitle(a), Moved(1, 2), 0, 3)]
  {
    NestedFirst(ps, s, a, b);
    OneBlock(Process(ps, s), 3);
  }

  lemma NestedOuterOffFirst(ps: seq<Paragraph>, s: Settings, a: AdmType, b: AdmType)
    requires NestedFacts(ps, a, b) && !Enabled(s, a)
    ensures 1 < |Process(ps, s)| && Process(ps, s)[0] == Kept(0) && Lo(Process(ps, s)[1]) == 1
  {
    DisabledTypeKept(ps, s, 0, 0, a);
  }

  lemma NestedOuterOffSecond(ps: seq<Paragraph>, s: Settings, b: AdmType)
    requires NextTerminator(ps, 1, 2) && MultiStartParagraph(ps[1], b, MultiStart(b, None))
    requires 1 < |Process(ps, s)| && Lo(Process(ps, s)[1]) == 1 && Enabled(s, b)
    ensures Process(ps, s)[1] == Admonition(b, DefaultTitle(b), Moved(2, 2), 1, 3)
  {
    MultiLineParagraph(ps, s, 1, 1, b, MultiStart(b, None), 2);
  }

  lemma NestedProcessOuterOff(ps: seq<Paragraph>, s: Settings, a: AdmType, b: AdmType)
    requires NestedFacts(ps, a, b) && !Enabled(s, a) && Enabled(s, b)
    ensures Process(ps, s) == [Kept(0), Admonition(b, DefaultTitle(b), Moved(2, 2), 1, 3)]
  {
    var r := Process(ps, s);
    NestedOuterOffFirst(ps, s, a, b);
    NestedOuterOffSecond(ps, s, b);
    TwoBlocks(r, 3);
  }

  /** Reading mode: the note takes in the `:::tip` line as content and ends at the `:::`. */
  lemma NestedReading(ps: seq<Paragraph>, s: Settings)
    requires ps == [Plain(":::note"), Plain(":::tip"), Plain(":::")] && Enabled(s, Note)
    ensures Process(ps, s) == [Admonition(Note, "NOTE", Moved(1, 2), 0, 3)]
  {
    NestedSection(ps);
    NestedProcess(ps, s, Note, Tip);
    DefaultTitles();
  }

  /** Reading mode with notes switched off: the `:::note` line is left alone and the scan resumes
      with the next paragraph, where the `:::tip` start takes the `:::` as its terminator and so
      has an empty body. */
  lemma NestedReadingNoteOff(ps: seq<Paragraph>, s: Settings)
    requires ps == [Plain(":::note"), Plain(":::tip"), Plain(":::")] && !Enabled(s, Note) && Enabled(s, Tip)
    ensures Process(ps, s) == [Kept(0), Admonition(Tip, "TIP", Moved(2, 2), 1, 3)]
  {
    NestedSection(ps);
    NestedProcessOuterOff(ps, s, Note, Tip);
    DefaultTitles();
  }

  /** What the editor needs to know about a document of a start line of type `a`, a start line of
      type `b` and an end line, with no fence or indentation. */
  predicate NestedLines(d: Doc, a: AdmType, b: AdmType) {
    && NestedEnds(d)
    && !InCodeLine(d, 0) && !InCodeLine(d, 1)
    && OpensEditorBlock(d[0], a) && OpensEditorBlock(d[1], b)
  }

  /** Three lines of which only the last, which is not empty, is an end line. */
  predicate NestedEnds(d: Doc) {
    |d| == 3 && d[2] != "" && IsEnd(d[2]) && !IsEnd(d[1])
  }

  lemma NestedDoc(d: Doc)
    requires d == [":::note", ":::tip", ":::"]
    ensures NestedLines(d, Note, Tip)
  {
    OpeningLineShape(d[0], Note);
    OpeningLineEditor(d[0], Note);
    OpeningLineShape(d[1], Tip);
    OpeningLineEditor(d[1], Tip);
    MarkerLine(d[2]);
  }

  /** A decoration the block started at line `i` covers is produced. */
  lemma Decorated(d: Doc, s: Settings, i: nat, t: AdmType, x: Deco)
    requires i < |d| && StartsBlock(d, s, i, t) && Covers(d, i, t, x)
    ensures x in Decorations(d, s)
  {
    DecorationsIff(d, s, x);
  }

  /** The outer block: start, content and end lines. */
  lemma NestedOuterDecorations(d: Doc, s: Settings, a: AdmType, b: AdmType)
    requires NestedLines(d, a, b) && Enabled(s, a)
    ensures Deco(0, a, Start) in Decorations(d, s)
    ensures Deco(1, a, Content) in Decorations(d, s)
    ensures Deco(2, a, End) in Decorations(d, s)
  {
    assert StartsBlock(d, s, 0, a);
    Decorated(d, s, 0, a, Deco(0, a, Start));
    NestedOuterLines(d, a);
    Decorated(d, s, 0, a, Deco(1, a, Content));
    Decorated(d, s, 0, a, Deco(2, a, End));
  }

  /** The lines after the outer start belong to the outer block. */
  lemma NestedOuterLines(d: Doc, a: AdmType)
    requires NestedEnds(d)
    ensures InBlock(d, 1, a, Deco(1, a, Content)) && InBlock(d, 1, a, Deco(2, a, End))
  {
    assert Visited(d, 1) && Visited(d, 2);
  }

  /** The inner block: its start line and the shared end line. */
  lemma NestedInnerDecorations(d: Doc, s: Settings, a: AdmType, b: AdmType)
    requires NestedLines(d, a, b) && Enabled(s, b)
    ensures Deco(1, b, Start) in Decorations(d, s)
    ensures Deco(2, b, End) in Decorations(d, s)
  {
    assert StartsBlock(d, s, 1, b);
    Decorated(d, s, 1, b, Deco(1, b, Start));
    assert InBlock(d, 2, b, Deco(2, b, End));
    Decorated(d, s, 1, b, Deco(2, b, End));
  }

  /** The editor: the note's lines are decorated as start, content and end, and the `:::tip` line,
      visited again by the outer loop, starts a tip block of its own that ends at the same `:::`. */
  lemma NestedEditor(d: Doc)
    requires d == [":::note", ":::tip", ":::"]
    ensures Deco(0, Note, Start) in Decorations(d, DefaultSettings)
    ensures Deco(1, Note, Content) in Decorations(d, DefaultSettings)
    ensures Deco(2, Note, End) in Decorations(d, DefaultSettings)
    ensures Deco(1, Tip, Start) in Decorations(d, DefaultSettings)
    ensures Deco(2, Tip, End) in Decorations(d, DefaultSettings)
  {
    NestedDoc(d);
    NestedOuterDecorations(d, DefaultSettings, Note, Tip);
    NestedInnerDecorations(d, DefaultSettings, Note, Tip);
  }

  /** A bare fence above a line is read as a closing fence: the line is not code. */
  lemma BareFenceAbove(d: Doc)
    requires d == ["```", ":::note"]
    ensures Deco(1, Note, Start) in Decorations(d, DefaultSettings)
  {
    OpeningLineShape(d[1], Note);
    OpeningLineEditor(d[1], Note);
    assert BareFence(d[0]);
    StartDecorated(d, DefaultSettings, 1, Note);
  }

  /** A fence with a language above a line makes it code: no block starts there. */
  lemma LanguageFenceAbove(d: Doc)
    requires d == ["```js", ":::note"]
    ensures Deco(1, Note, Start) !in Decorations(d, DefaultSettings)
  {
    assert StartsWith(d[0], Fence) && !BareFence(d[0]) by {
      assert d[0][3..] == "js";
      assert !IsSpace(d[0][3..][0]);
    }
    StartDecorated(d, DefaultSettings, 1, Note);
  }
}
