/**
 * The markup-line renderer inside `createImprovedPdf` (server/cvService.js).
 * The PDF document is seen only through the drawing steps the loop asks of it:
 * one title, then one step per `\n`-separated piece of the text. Page geometry
 * (cursor moves, coordinates, margins) is not part of the model; a text step
 * records the font size, fill colour, alignment, underline and indent it is
 * drawn with.
 */
module Render {
  import opened Strings

  /** The three fill colours the renderer uses: "black", "#1f4e79" and "#333333". */
  datatype Colour = Black | Navy | Grey

  datatype Align = Left | Center

  /** The document's current text style: font size and fill colour. */
  datatype Style = Style(size: nat, fill: Colour)

  /** One drawing step. */
  datatype Action =
    | Gap        // a blank line: vertical space only
    | HRule      // a full-width horizontal rule
    | Text(text: string, size: nat, fill: Colour, align: Align, underline: bool, indent: nat)

  /** The seven line classes, in the order they are tested. */
  datatype LineKind = Blank | Rule | Heading | SubHeading | Bullet | Pipe | Paragraph

  /** The fixed title drawn before any line of the content. */
  const Title: Action := Text("Curriculum Vitae", 20, Navy, Center, true, 0)

  /** The style set right after the title. */
  const BodyStyle: Style := Style(12, Black)

  /** Which class a raw line falls into; the first test that holds wins. */
  function Classify(raw: string): LineKind {
    var line := TrimEnd(raw);
    if Trim(line) == [] then Blank
    else if Trim(line) == "---" then Rule
    else if StartsWith(line, "### ") then Heading
    else if StartsWith(line, "**") && EndsWith(line, "**") && |line| > 4 then SubHeading
    else if (StartsWith(line, "* ") || StartsWith(line, "- ")) && |line| > 2 then Bullet
    else if '|' in line then Pipe
    else Paragraph
  }

  /** Blank and rule lines draw no text and leave the style alone. */
  predicate DrawsText(k: LineKind) {
    k != Blank && k != Rule
  }

  /** The drawing step a raw line produces. */
  function LineAction(raw: string): Action {
    var line := TrimEnd(raw);
    match Classify(raw)
    case Blank => Gap
    case Rule => HRule
    case Heading => Text(Trim(line[4..]), 14, Navy, Left, true, 0)
    case SubHeading => Text(Trim(line[2..|line| - 2]), 12, Grey, Left, true, 0)
    case Bullet => Text("• " + Trim(line[2..]), 12, Black, Left, false, 10)
    case Pipe => Text(line, 11, Grey, Center, false, 0)
    case Paragraph => Text(line, 12, Black, Left, false, 0)
  }

  /** The steps of a run of lines, in order. */
  function LineActions(lines: seq<string>): seq<Action> {
    if lines == [] then []
    else LineActions(lines[..|lines| - 1]) + [LineAction(lines[|lines| - 1])]
  }

  /** What the renderer draws for `contentText`. */
  function Rendered(contentText: string): seq<Action> {
    [Title] + LineActions(Split(contentText))
  }

  /** Whether the last line of `lines` that drew text was a pipe line. */
  function LastTextIsPipe(lines: seq<string>): bool {
    if lines == [] then false
    else
      var k := Classify(lines[|lines| - 1]);
      if DrawsText(k) then k == Pipe else LastTextIsPipe(lines[..|lines| - 1])
  }

  /** The style a line leaves on the document, given the style before it. */
  function StyleAfter(style: Style, raw: string): Style {
    var k := Classify(raw);
    if !DrawsText(k) then style
    else if k == Pipe then Style(11, Black)
    else Style(12, Black)
  }

  /**
   * One turn of the render loop: the branch of the line's class sets the style,
   * draws, and sets the style back where the source does.
   */
  method DrawLine(raw: string, style: Style) returns (action: Action, next: Style)
    ensures action == LineAction(raw)
    ensures next == StyleAfter(style, raw)
  {
    next := style;
    var line := TrimEnd(raw);
    match Classify(raw)
    case Blank =>
      action := Gap;
    case Rule =>
      action := HRule;
    case Heading =>
      var title := Trim(line[4..]);
      next := Style(14, Navy);
      action := Text(title, next.size, next.fill, Left, true, 0);
      next := Style(12, Black);
    case SubHeading =>
      var title := Trim(line[2..|line| - 2]);
      next := Style(12, Grey);
      action := Text(title, next.size, next.fill, Left, true, 0);
      next := next.(fill := Black);
    case Bullet =>
      var text := Trim(line[2..]);
      next := Style(12, Black);
      action := Text("• " + text, next.size, next.fill, Left, false, 10);
    case Pipe =>
      next := Style(11, Grey);
      action := Text(line, next.size, next.fill, Center, false, 0);
      next := next.(fill := Black);
    case Paragraph =>
      next := Style(12, Black);
      action := Text(line, next.size, next.fill, Left, false, 0);
  }

  /**
   * The render loop. It draws the title, then walks the lines once, drawing one
   * step per line and carrying the font size and fill colour from line to line.
   * It returns what was drawn and the style left on the document.
   */
  method CreateImprovedPdf(contentText: string) returns (log: seq<Action>, style: Style)
    ensures log == Rendered(contentText)
    ensures style.fill == Black
    ensures style.size == if LastTextIsPipe(Split(contentText)) then 11 else 12
  {
    style := Style(20, Navy);
    log := [Text("Curriculum Vitae", style.size, style.fill, Center, true, 0)];
    style := BodyStyle;

    var lines := Split(contentText);
    assert lines[..0] == [];
    for i := 0 to |lines|
      invariant log == [Title] + LineActions(lines[..i])
      invariant style == Style(if LastTextIsPipe(lines[..i]) then 11 else 12, Black)
    {
      var action, next := DrawLine(lines[i], style);
      RenderStep(lines, i, log, style);
      log, style := log + [action], next;
    }
    assert lines[..|lines|] == lines;
  }

  lemma LineActionsSnoc(done: seq<string>, prefix: seq<string>, raw: string)
    requires done == prefix + [raw]
    ensures LineActions(done) == LineActions(prefix) + [LineAction(raw)]
  {
    assert done[..|done| - 1] == prefix;
  }

  lemma LastTextIsPipeSnoc(done: seq<string>, prefix: seq<string>, raw: string)
    requires done == prefix + [raw]
    ensures LastTextIsPipe(done) == if DrawsText(Classify(raw)) then Classify(raw) == Pipe else LastTextIsPipe(prefix)
  {
    assert done[..|done| - 1] == prefix;
  }

  /** One turn of the loop keeps the loop's invariant. */
  lemma RenderStep(lines: seq<string>, i: nat, log: seq<Action>, style: Style)
    requires i < |lines|
    requires log == [Title] + LineActions(lines[..i])
    requires style == Style(if LastTextIsPipe(lines[..i]) then 11 else 12, Black)
    ensures log + [LineAction(lines[i])] == [Title] + LineActions(lines[..i + 1])
    ensures StyleAfter(style, lines[i]) == Style(if LastTextIsPipe(lines[..i + 1]) then 11 else 12, Black)
  {
    assert lines[..i + 1] == lines[..i] + [lines[i]];
    LineActionsSnoc(lines[..i + 1], lines[..i], lines[i]);
    LastTextIsPipeSnoc(lines[..i + 1], lines[..i], lines[i]);
  }

  // ---------- the shape of the output ----------

  lemma {:induction false} LineActionsAt(lines: seq<string>, i: nat)
    requires i < |lines|
    ensures |LineActions(lines)| == |lines|
    ensures LineActions(lines)[i] == LineAction(lines[i])
  {
    if i < |lines| - 1 {
      LineActionsAt(lines[..|lines| - 1], i);
    } else if |lines| > 1 {
      LineActionsAt(lines[..|lines| - 1], 0);
    } else {
      assert lines[..0] == [];
    }
  }

  /** The title comes first, then exactly one step per piece of the input, in input order. */
  lemma RenderedShape(contentText: string)
    ensures |Rendered(contentText)| == 1 + |Split(contentText)|
    ensures Rendered(contentText)[0] == Title
    ensures forall i :: 0 <= i < |Split(contentText)| ==>
      Rendered(contentText)[i + 1] == LineAction(Split(contentText)[i])
  {
    var lines := Split(contentText);
    LineActionsAt(lines, 0);
    forall i | 0 <= i < |lines|
      ensures Rendered(contentText)[i + 1] == LineAction(lines[i])
    {
      LineActionsAt(lines, i);
    }
  }

  // ---------- classification ----------

  /** A line is blank exactly when it is all white space, and then it only leaves a gap. */
  lemma BlankIffAllSpace(raw: string)
    ensures Classify(raw) == Blank <==> AllSpace(raw)
    ensures Classify(raw) == Blank ==> LineAction(raw) == Gap
  {
    var line := TrimEnd(raw);
    TrimEndSpec(raw);
    TrimEmptyIffAllSpace(line);
    TrimEmptyIffAllSpace(raw);
    TrimEndUnique(line, |line|);
  }

  /** A rule may be indented and may carry trailing white space. */
  lemma IndentedRule(w1: string, w2: string)
    requires AllSpace(w1) && AllSpace(w2)
    ensures Classify(w1 + "---" + w2) == Rule
    ensures LineAction(w1 + "---" + w2) == HRule
  {
    var raw := w1 + "---" + w2;
    TrimAround(w1, "---", w2);
    var line := w1 + "---";
    TrimAround(w1, "---", "");
    assert line + "" == line;
  }

  /** A heading marker counts only at the very start of the line. */
  lemma HeadingAtColumnZero(raw: string)
    ensures Classify(raw) == Heading ==> StartsWith(raw, "### ")
  {
    TrimEndSpec(raw);
  }

  /** An indented heading marker makes a plain paragraph, indentation kept. */
  lemma IndentedHeadingIsParagraph()
    ensures Classify(" ### Summary") == Paragraph
    ensures LineAction(" ### Summary") == Text(" ### Summary", 12, Black, Left, false, 0)
  {
    var raw := " ### Summary";
    TrimEndUnique(raw, |raw|);
    TrimAround(" ", "### Summary", "");
    assert " " + "### Summary" + "" == raw;
  }

  /** A heading's title is the text after the marker, trimmed, and is never empty. */
  lemma HeadingTitle(raw: string)
    requires Classify(raw) == Heading
    ensures LineAction(raw).Text? && LineAction(raw).text == Trim(raw[4..])
    ensures LineAction(raw).text != []
    ensures !IsSpace(LineAction(raw).text[0])
    ensures !IsSpace(LineAction(raw).text[|LineAction(raw).text| - 1])
  {
    var line := TrimEnd(raw);
    TrimEndSpec(raw);
    assert line[3] == ' ';
    var rest := line[4..];
    assert rest[|rest| - 1] == line[|line| - 1];
    TrimEndUnique(rest, |rest|);
    assert rest[..|rest|] == rest;
    var title := TrimStart(rest);
    TrimStartSpec(rest);
    assert title == Trim(rest);
    assert title[|title| - 1] == rest[|rest| - 1];
    TrimTailOfTrimEnd(raw, 4);
  }

  /** After `trimEnd`, a line that starts with a bullet marker is always longer than the marker. */
  lemma BulletLengthGuardRedundant(raw: string)
    requires StartsWith(TrimEnd(raw), "* ") || StartsWith(TrimEnd(raw), "- ")
    ensures |TrimEnd(raw)| > 2
  {
    TrimEndSpec(raw);
    assert TrimEnd(raw)[1] == ' ';
  }

  /** A bullet is drawn as the bullet glyph and the rest of the line after the marker, trimmed. */
  lemma BulletText(raw: string)
    requires Classify(raw) == Bullet
    ensures LineAction(raw) == Text("• " + Trim(raw[2..]), 12, Black, Left, false, 10)
  {
    TrimTailOfTrimEnd(raw, 2);
  }

  /**
   * A line opening with a bullet marker is a bullet whatever follows the marker:
   * none of the earlier tests can match it, and the later test for a bar is
   * never reached.
   */
  lemma BulletMarkerWins(raw: string)
    requires StartsWith(TrimEnd(raw), "* ") || StartsWith(TrimEnd(raw), "- ")
    ensures Classify(raw) == Bullet
  {
    var line := TrimEnd(raw);
    TrimEndSpec(raw);
    BulletLineFacts(line);
  }

  /** What a line opening with a bullet marker and ending in non-space is not. */
  lemma BulletLineFacts(line: string)
    requires StartsWith(line, "* ") || StartsWith(line, "- ")
    requires !IsSpace(line[|line| - 1])
    ensures |line| > 2 && Trim(line) == line && line != "---"
    ensures !StartsWith(line, "### ") && !StartsWith(line, "**")
  {
    assert (line[0] == '*' || line[0] == '-') && line[1] == ' ';
    TrimmedUnchanged(line);
    assert line != "---" by {
      assert "---"[1] == '-';
    }
    assert !StartsWith(line, "### ") by {
      assert "### "[0] == '#';
    }
    assert !StartsWith(line, "**") by {
      assert "**"[1] == '*';
    }
  }

  /** The first matching class wins: a bullet holding a bar is a bullet, not a centred line. */
  lemma BulletBeforePipe()
    ensures Classify("- a | b") == Bullet && LineAction("- a | b").text == "• a | b"
  {
    var line := "- a | b";
    TrimmedUnchanged(line);
    assert line[..2] == "- ";
    BulletMarkerWins(line);
    BulletText(line);
    var rest := "a | b";
    assert line[2..] == rest;
    TrimmedUnchanged(rest);
  }

  /**
   * A line without trailing or leading white space, opening with none of the
   * marker characters and holding no bar, is a paragraph drawn as it is.
   */
  lemma PlainLine(line: string)
    requires line != [] && !IsSpace(line[0]) && !IsSpace(line[|line| - 1])
    requires line[0] != '#' && line[0] != '*' && line[0] != '-' && '|' !in line
    ensures Classify(line) == Paragraph
    ensures LineAction(line) == Text(line, 12, Black, Left, false, 0)
  {
    TrimmedUnchanged(line);
    assert line[0] != "---"[0];
  }

  /** Four asterisks are too short for a sub-heading and make a plain paragraph. */
  lemma FourAsterisksIsParagraph()
    ensures Classify("****") == Paragraph
    ensures LineAction("****") == Text("****", 12, Black, Left, false, 0)
  {
    var line := "****";
    TrimAround("", line, "");
    assert "" + line + "" == line;
    assert TrimEnd(line) == line;
    assert Trim(line) == line;
    assert line[1] != "### "[1];
    assert !StartsWith(line, "### ");
    assert line[1] != "* "[1] && line[0] != "- "[0];
    assert !StartsWith(line, "* ") && !StartsWith(line, "- ");
    assert '|' !in line;
  }

  /** A sub-heading may have an empty title. */
  lemma EmptySubHeading()
    ensures Classify("** **") == SubHeading && LineAction("** **").text == ""
  {
    TrimAround("", "** **", "");
    assert "" + "** **" + "" == "** **";
    assert "** **"[2..3] == " ";
    TrimEmptyIffAllSpace(" ");
  }

  // ---------- the style carried from line to line ----------

  /** Line `i` drew a pipe line and no later line drew text. */
  ghost predicate PipeThenSilent(lines: seq<string>, i: int) {
    0 <= i < |lines| && Classify(lines[i]) == Pipe &&
    forall j :: i < j < |lines| ==> !DrawsText(Classify(lines[j]))
  }

  /**
   * The renderer ends with font size 11 exactly when some pipe line was followed
   * only by blank and rule lines.
   */
  lemma {:induction false} LastTextIsPipeMeans(lines: seq<string>)
    ensures LastTextIsPipe(lines) <==> exists i :: PipeThenSilent(lines, i)
  {
    if lines != [] {
      var n := |lines|;
      var k := Classify(lines[n - 1]);
      if DrawsText(k) {
        if k == Pipe {
          assert PipeThenSilent(lines, n - 1);
        }
        assert forall i :: PipeThenSilent(lines, i) ==> i == n - 1;
      } else {
        var pre := lines[..n - 1];
        assert LastTextIsPipe(lines) == LastTextIsPipe(pre);
        LastTextIsPipeMeans(pre);
        if i :| PipeThenSilent(pre, i) {
          SilenceExtends(lines, i);
        }
        if i :| PipeThenSilent(lines, i) {
          SilenceShrinks(lines, i);
        }
      }
    }
  }

  /** A pipe line followed by silence stays so when a line drawing no text is added. */
  lemma SilenceExtends(lines: seq<string>, i: int)
    requires lines != [] && !DrawsText(Classify(lines[|lines| - 1]))
    requires PipeThenSilent(lines[..|lines| - 1], i)
    ensures PipeThenSilent(lines, i)
  {
    var pre := lines[..|lines| - 1];
    assert lines[i] == pre[i];
    forall j | i < j < |lines| ensures !DrawsText(Classify(lines[j])) {
      if j < |lines| - 1 {
        assert lines[j] == pre[j];
      }
    }
  }

  /** A pipe line followed by silence is not the last line when that one draws no text. */
  lemma SilenceShrinks(lines: seq<string>, i: int)
    requires lines != [] && !DrawsText(Classify(lines[|lines| - 1]))
    requires PipeThenSilent(lines, i)
    ensures PipeThenSilent(lines[..|lines| - 1], i)
  {
    var pre := lines[..|lines| - 1];
    assert i != |lines| - 1;
    assert lines[i] == pre[i];
    forall j | i < j < |pre| ensures !DrawsText(Classify(pre[j])) {
      assert lines[j] == pre[j];
    }
  }

  // ---------- a final newline ----------

  /** Text ending in a newline draws one more step than the same text without it: a gap. */
  lemma TrailingNewlineAddsGap(contentText: string)
    ensures Rendered(contentText + "\n") == Rendered(contentText) + [Gap]
  {
    var lines := Split(contentText);
    SplitTrailingNewline(contentText);
    LineActionsSnoc(lines + [[]], lines, []);
  }

  // ---------- a worked example ----------

  const SummaryText: string := "### Summary" + "\n" + "Built systems." + "\n" + "---" + "\n" + "* Led a team"

  const SummaryLines: seq<string> := ["### Summary", "Built systems.", "---", "* Led a team"]

  lemma SummaryJoin()
    ensures Join(SummaryLines) == SummaryText
  {
    var pieces := SummaryLines;
    assert pieces[1..][1..][1..] == ["* Led a team"];
    assert Join(pieces[2..]) == "---" + "\n" + "* Led a team";
    assert Join(pieces[1..]) == "Built systems." + "\n" + ("---" + "\n" + "* Led a team");
  }

  lemma SummaryPieces()
    ensures Split(SummaryText) == SummaryLines
  {
    SummaryJoin();
    assert '\n' !in SummaryLines[0];
    assert '\n' !in SummaryLines[1];
    assert '\n' !in SummaryLines[3];
    SplitJoin(SummaryLines);
  }

  lemma SummaryHeading()
    ensures LineAction("### Summary") == Text("Summary", 14, Navy, Left, true, 0)
  {
    var h := "### Summary";
    TrimmedUnchanged(h);
    assert h[..4] == "### ";
    assert h[4..] == "Summary";
    TrimmedUnchanged("Summary");
  }

  lemma SummaryParagraph()
    ensures LineAction("Built systems.") == Text("Built systems.", 12, Black, Left, false, 0)
  {
    var p := "Built systems.";
    assert p[0] == 'B' && p[|p| - 1] == '.';
    assert '|' !in p;
    PlainLine(p);
  }

  lemma SummaryRule()
    ensures LineAction("---") == HRule
  {
    TrimmedUnchanged("---");
  }

  lemma SummaryBullet()
    ensures LineAction("* Led a team") == Text("• Led a team", 12, Black, Left, false, 10)
  {
    var b := "* Led a team";
    assert b[0] == '*' && b[|b| - 1] == 'm';
    TrimmedUnchanged(b);
    assert b[..2] == "* ";
    BulletMarkerWins(b);
    BulletText(b);
    var rest := "Led a team";
    assert b[2..] == rest;
    assert rest[0] == 'L' && rest[|rest| - 1] == 'm';
    TrimmedUnchanged(rest);
  }

  lemma {:induction false} LineActionsOfFour(a: string, b: string, c: string, d: string)
    ensures LineActions([a, b, c, d]) == [LineAction(a), LineAction(b), LineAction(c), LineAction(d)]
  {
    var ls := [a, b, c, d];
    LineActionsSnoc([a], [], a);
    LineActionsSnoc([a, b], [a], b);
    LineActionsSnoc([a, b, c], [a, b], c);
    LineActionsSnoc(ls, [a, b, c], d);
  }

  /**
   * A heading, a paragraph, a rule and a bullet: the renderer draws the title
   * and then the four blocks in order.
   */
  lemma SummaryExample()
    ensures Rendered(SummaryText) == [
      Title,
      Text("Summary", 14, Navy, Left, true, 0),
      Text("Built systems.", 12, Black, Left, false, 0),
      HRule,
      Text("• Led a team", 12, Black, Left, false, 10)]
  {
    SummaryRendered();
    SummaryActions();
  }

  lemma SummaryRendered()
    ensures Rendered(SummaryText) == [Title] + LineActions(SummaryLines)
  {
    SummaryPieces();
  }

  lemma SummaryActions()
    ensures LineActions(SummaryLines) == [
      Text("Summary", 14, Navy, Left, true, 0),
      Text("Built systems.", 12, Black, Left, false, 0),
      HRule,
      Text("• Led a team", 12, Black, Left, false, 10)]
  {
    LineActionsOfFour("### Summary", "Built systems.", "---", "* Led a team");
    SummaryHeading();
    SummaryParagraph();
    SummaryRule();
    SummaryBullet();
  }

  /** With a final newline, the same text draws a fifth step: a gap for the empty last piece. */
  lemma SummaryWithFinalNewline()
    ensures Rendered(SummaryText + "\n") == [
      Title,
      Text("Summary", 14, Navy, Left, true, 0),
      Text("Built systems.", 12, Black, Left, false, 0),
      HRule,
      Text("• Led a team", 12, Black, Left, false, 10),
      Gap]
  {
    SummaryExample();
    TrailingNewlineAddsGap(SummaryText);
  }
}
