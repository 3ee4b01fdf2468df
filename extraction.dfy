/**
 * The text extractor: the recognition tree the OCR engine exports
 * (pages of blocks of lines of words) and its serialisation into one
 * plain-text transcript, first as a specification function and then as
 * the triply nested accumulating loop of `extract_text_from_pdf_bytes`.
 */
module Extraction {
  import opened Strings

  /** A recognised word; the engine's other metadata (confidence,
      geometry) is not read by the serialiser. */
  datatype Word = Word(value: string)
  datatype Line = Line(words: seq<Word>)
  datatype Block = Block(lines: seq<Line>)
  datatype Page = Page(blocks: seq<Block>)

  /** The list comprehension taking each word's `value`, in order. */
  function WordValues(words: seq<Word>): (r: seq<string>)
    ensures |r| == |words|
    ensures forall i | 0 <= i < |words| :: r[i] == words[i].value
  {
    seq(|words|, i requires 0 <= i < |words| => words[i].value)
  }

  /** A line's words joined by single spaces, without its newline: empty
      for a line with no words, and otherwise the word values plus one
      space for each pair of neighbouring words. */
  function LineContent(l: Line): (r: string)
    ensures l.words == [] ==> r == ""
    ensures |l.words| >= 1 ==> |r| == TotalLength(WordValues(l.words)) + |l.words| - 1
  {
    GapLengthUnit(|l.words|);
    Join(WordValues(l.words), " ")
  }

  /** What one line contributes to the transcript: its content and then the
      newline it appends, which is all a line with no words contributes. */
  function LineText(l: Line): (r: string)
    ensures |r| >= 1 && r[|r| - 1] == '\n'
    ensures l.words == [] ==> r == "\n"
  {
    LineContent(l) + "\n"
  }

  /** A block's text: its line texts, in order. It is empty exactly when the
      block has no lines, and otherwise ends with a newline. */
  function BlockText(b: Block): (r: string)
    ensures r == "" <==> b.lines == []
    ensures b.lines != [] ==> r[|r| - 1] == '\n'
  {
    LineTextsShape(b.lines);
    FlatMap(b.lines, LineText)
  }

  /** A page's text: its block texts, in order, which is the same as the
      texts of all its lines in block order, with no block separator. */
  function PageText(p: Page): (r: string)
    ensures r == FlatMap(PageLines(p), LineText)
  {
    FlatMapNested(p.blocks, BlockLines, LineText, BlockText);
    FlatMap(p.blocks, BlockText)
  }

  /** The transcript of the exported pages: every page's text, in order.
      It is the concatenation of the texts of all lines in page, block,
      line order, and nothing else. */
  function Transcript(pages: seq<Page>): (r: string)
    ensures r == FlatMap(AllLines(pages), LineText)
  {
    FlatMapNested(pages, PageLines, LineText, PageText);
    FlatMap(pages, PageText)
  }

  function BlockLines(b: Block): seq<Line>
  {
    b.lines
  }

  function PageLines(p: Page): seq<Line>
  {
    FlatMap(p.blocks, BlockLines)
  }

  /** Every line of the tree in reading order: page, then block, then line. */
  function AllLines(pages: seq<Page>): seq<Line>
  {
    FlatMap(pages, PageLines)
  }

  /** The serialiser as written: an accumulator extended once per line
      inside loops over pages, blocks and lines. */
  method ExtractText(pages: seq<Page>) returns (fullText: string)
    ensures fullText == Transcript(pages)
  {
    fullText := "";
    for i := 0 to |pages|
      invariant fullText == FlatMap(pages[..i], PageText)
    {
      var page := pages[i];
      ghost var beforePage := fullText;
      for j := 0 to |page.blocks|
        invariant fullText == beforePage + FlatMap(page.blocks[..j], BlockText)
      {
        var block := page.blocks[j];
        ghost var beforeBlock := fullText;
        for k := 0 to |block.lines|
          invariant fullText == beforeBlock + FlatMap(block.lines[..k], LineText)
        {
          var line := block.lines[k];
          var words := WordValues(line.words);
          AccumulateStep(fullText, beforeBlock, block.lines, k, LineText);
          fullText := fullText + Join(words, " ") + "\n";
        }
        assert block.lines[..|block.lines|] == block.lines;
        AccumulateStep(beforeBlock, beforePage, page.blocks, j, BlockText);
      }
      assert page.blocks[..|page.blocks|] == page.blocks;
      AccumulateStep(beforePage, "", pages, i, PageText);
    }
    assert pages[..|pages|] == pages;
  }

  /** Pages add no separator: the transcript of two runs of pages is the
      first run's transcript followed by the second's. */
  lemma TranscriptAppend(ps: seq<Page>, qs: seq<Page>)
    ensures Transcript(ps + qs) == Transcript(ps) + Transcript(qs)
  {
    FlatMapAppend(ps, qs, PageText);
  }

  /** A single page's transcript is that page's text. */
  lemma TranscriptOfPage(p: Page)
    ensures Transcript([p]) == PageText(p)
  {
    FlatMapSingleton(p, PageText);
  }

  /** Blocks add no separator within a page. */
  lemma PageTextAppend(bs: seq<Block>, cs: seq<Block>)
    ensures PageText(Page(bs + cs)) == PageText(Page(bs)) + PageText(Page(cs))
  {
    FlatMapAppend(bs, cs, BlockText);
  }

  /** Within a block, line texts follow one another directly. */
  lemma BlockTextAppend(ls: seq<Line>, ms: seq<Line>)
    ensures BlockText(Block(ls + ms)) == BlockText(Block(ls)) + BlockText(Block(ms))
  {
    FlatMapAppend(ls, ms, LineText);
  }

  /** Concatenated line texts are empty exactly when there are no lines,
      and otherwise end with a newline. */
  lemma LineTextsShape(lines: seq<Line>)
    ensures FlatMap(lines, LineText) == "" <==> lines == []
    ensures lines != [] ==>
      |FlatMap(lines, LineText)| >= 1 && FlatMap(lines, LineText)[|FlatMap(lines, LineText)| - 1] == '\n'
  {
  }

  /** The transcript is empty exactly when the tree holds no line at all
      (no pages, or only empty pages and blocks). */
  lemma TranscriptEmptyIff(pages: seq<Page>)
    ensures Transcript(pages) == "" <==> AllLines(pages) == []
  {
    LineTextsShape(AllLines(pages));
  }

  /** When some line exists, the transcript ends with a newline. */
  lemma TranscriptEndsWithNewline(pages: seq<Page>)
    requires AllLines(pages) != []
    ensures |Transcript(pages)| >= 1 && Transcript(pages)[|Transcript(pages)| - 1] == '\n'
  {
    LineTextsShape(AllLines(pages));
  }

  /** No word value of any of the lines contains `c`. */
  predicate WordsAvoid(lines: seq<Line>, c: char)
  {
    forall i, j | 0 <= i < |lines| && 0 <= j < |lines[i].words| :: c !in lines[i].words[j].value
  }

  /** Within a line, the words appear in their original order separated by
      exactly one space: when no word value contains a space, splitting the
      line at spaces gives back the word values. */
  lemma LineContentSplitsIntoWords(l: Line)
    requires |l.words| >= 1
    requires WordsAvoid([l], ' ')
    ensures Split(LineContent(l), ' ') == WordValues(l.words)
  {
    var vals := WordValues(l.words);
    assert forall j | 0 <= j < |vals| :: ' ' !in vals[j] by {
      forall j | 0 <= j < |vals| ensures ' ' !in vals[j] {
        assert [l][0].words[j] == l.words[j];
      }
    }
    JoinSplit(vals, ' ');
  }

  /** A line's content starts with its first word's value and ends with its
      last word's value: the joining adds nothing before the first word or
      after the last. */
  lemma LineContentEnds(l: Line)
    requires |l.words| >= 1
    ensures l.words[0].value <= LineContent(l)
    ensures var last := l.words[|l.words| - 1].value;
      |last| <= |LineContent(l)| && LineContent(l)[|LineContent(l)| - |last|..] == last
  {
    JoinEnds(WordValues(l.words), " ");
  }

  /** The contents of the lines, one string per line, in order. */
  function LineContents(lines: seq<Line>): (r: seq<string>)
    ensures |r| == |lines|
    ensures forall i | 0 <= i < |lines| :: r[i] == LineContent(lines[i])
  {
    seq(|lines|, i requires 0 <= i < |lines| => LineContent(lines[i]))
  }

  /** A line whose word values avoid `c` has content avoiding `c` (for any
      `c` other than the space). */
  lemma LineContentAvoids(l: Line, c: char)
    requires c != ' '
    requires forall j | 0 <= j < |l.words| :: c !in l.words[j].value
    ensures c !in LineContent(l)
  {
    JoinAvoids(WordValues(l.words), " ", c);
  }

  /** The first line and the remaining lines each keep the avoidance. */
  lemma WordsAvoidSplit(lines: seq<Line>, c: char)
    requires |lines| >= 1
    requires WordsAvoid(lines, c)
    ensures forall j | 0 <= j < |lines[0].words| :: c !in lines[0].words[j].value
    ensures WordsAvoid(lines[1..], c)
  {
  }

  lemma LineContentsCons(l: Line, rest: seq<Line>)
    ensures LineContents([l] + rest) == [LineContent(l)] + LineContents(rest)
  {
  }

  lemma {:induction false} LineTextsSplitIntoLines(lines: seq<Line>)
    requires WordsAvoid(lines, '\n')
    ensures Split(FlatMap(lines, LineText), '\n') == LineContents(lines) + [""]
    decreases |lines|
  {
    if |lines| > 0 {
      var l, rest := lines[0], lines[1..];
      assert lines == [l] + rest;
      WordsAvoidSplit(lines, '\n');
      LineTextsSplitIntoLines(rest);
      LineContentAvoids(l, '\n');
      var tail := FlatMap(rest, LineText);
      calc {
        Split(FlatMap(lines, LineText), '\n');
        { FlatMapCons(l, rest, LineText); }
        Split(LineContent(l) + "\n" + tail, '\n');
        { SplitSep(LineContent(l), tail, '\n'); }
        [LineContent(l)] + Split(tail, '\n');
        [LineContent(l)] + (LineContents(rest) + [""]);
        { LineContentsCons(l, rest); }
        LineContents(lines) + [""];
      }
    }
  }

  /** Every line contributes exactly one trailing newline and nothing else
      separates lines: when no word value contains a newline, splitting the
      transcript at newlines gives each line's content in reading order,
      followed by the empty remainder after the final newline. */
  lemma TranscriptSplitsIntoLines(pages: seq<Page>)
    requires WordsAvoid(AllLines(pages), '\n')
    ensures Split(Transcript(pages), '\n') == LineContents(AllLines(pages)) + [""]
  {
    LineTextsSplitIntoLines(AllLines(pages));
  }
}
