/**
 * The story renderer's line classifier: the content is split on '\n' and
 * every line becomes one block, a heading of level 1 to 3, a horizontal
 * rule, a spacer or a paragraph holding the line verbatim.
 */
module MarkdownRenderer {
  import opened Text

  datatype Block =
    | Heading1(text: string)
    | Heading2(text: string)
    | Heading3(text: string)
    | Rule
    | Spacer
    | Paragraph(text: string)

  /** The block one line becomes; the tests are tried in the renderer's order. */
  function RenderLine(line: string): (b: Block)
    ensures b.Heading1? ==> line == "# " + b.text
    ensures b.Heading2? ==> line == "## " + b.text
    ensures b.Heading3? ==> line == "### " + b.text
    ensures b.Rule? ==> Trim(line) == "---"
    ensures b.Spacer? ==> AllSpace(line)
    ensures b.Paragraph? ==> b.text == line
  {
    if StartsWith(line, "# ") then
      ReplacePrefix(line, "# ");
      Heading1(ReplaceFirst(line, "# ", ""))
    else if StartsWith(line, "## ") then
      ReplacePrefix(line, "## ");
      Heading2(ReplaceFirst(line, "## ", ""))
    else if StartsWith(line, "### ") then
      ReplacePrefix(line, "### ");
      Heading3(ReplaceFirst(line, "### ", ""))
    else if Trim(line) == "---" then Rule
    else if Trim(line) == "" then
      TrimEmpty(line);
      Spacer
    else Paragraph(line)
  }

  /** The line starts with one of the three heading markers. */
  predicate HasMarker(line: string)
  {
    StartsWith(line, "# ") || StartsWith(line, "## ") || StartsWith(line, "### ")
  }

  /** Which block a line becomes, in both directions: a line with no heading marker is a rule
      exactly when it trims to "---", a spacer exactly when it is white space throughout, and a
      paragraph holding the line otherwise. */
  lemma RenderLineCases(line: string)
    ensures RenderLine(line).Heading1? <==> StartsWith(line, "# ")
    ensures RenderLine(line).Heading2? <==> !StartsWith(line, "# ") && StartsWith(line, "## ")
    ensures RenderLine(line).Heading3? <==> !StartsWith(line, "# ") && !StartsWith(line, "## ") && StartsWith(line, "### ")
    ensures RenderLine(line) == Rule <==> !HasMarker(line) && Trim(line) == "---"
    ensures RenderLine(line) == Spacer <==> !HasMarker(line) && AllSpace(line)
    ensures RenderLine(line) == Paragraph(line) <==> !HasMarker(line) && Trim(line) != "---" && !AllSpace(line)
  {
    TrimEmpty(line);
    if AllSpace(line) {
      assert Trim(line) != "---" by { assert Trim(line) == ""; }
    }
  }

  /** `content.split('\n').map(...)`: one block per line, in order. */
  function Render(content: string): (r: seq<Block>)
    ensures |r| == |Split(content, '\n')| == Count(content, '\n') + 1
    ensures forall k :: 0 <= k < |r| ==> r[k] == RenderLine(Split(content, '\n')[k])
  {
    SplitPieces(content, '\n');
    var lines := Split(content, '\n');
    seq(|lines|, k requires 0 <= k < |lines| => RenderLine(lines[k]))
  }

  /** Each heading marker followed by any text gives back exactly that text. */
  lemma {:induction false} HeadingRoundTrip(t: string)
    ensures RenderLine("# " + t) == Heading1(t)
    ensures RenderLine("## " + t) == Heading2(t)
    ensures RenderLine("### " + t) == Heading3(t)
  {
    assert ("# " + t)[..2] == "# ";
    assert ("## " + t)[..3] == "## ";
    assert ("## " + t)[..2] != "# " by { assert ("## " + t)[1] == '#'; }
    assert ("### " + t)[..4] == "### ";
    assert ("### " + t)[..2] != "# " by { assert ("### " + t)[1] == '#'; }
    assert ("### " + t)[..3] != "## " by { assert ("### " + t)[2] == '#'; }
  }

  /** A line that is a heading marker without the space, such as a bare "#", stays a paragraph. */
  lemma MarkerWithoutSpace(t: string)
    requires NoSpace(t) && |t| > 0
    ensures RenderLine("#" + t) == Paragraph("#" + t)
  {
    var line := "#" + t;
    assert NoSpace(line) by {
      forall k | 0 <= k < |line| ensures !IsSpace(line[k]) {
        if k > 0 { assert line[k] == t[k - 1]; }
      }
    }
    assert "# "[1] == ' ' && "## "[2] == ' ' && "### "[3] == ' ';
    assert !IsSpace(line[..2][1]);
    assert |line| >= 3 ==> !IsSpace(line[..3][2]);
    assert |line| >= 4 ==> !IsSpace(line[..4][3]);
    assert !StartsWith(line, "# ") && !StartsWith(line, "## ") && !StartsWith(line, "### ");
    TrimShape(line);
    assert !IsSpace(line[0]) && !IsSpace(line[|line| - 1]);
    var i, j :| 0 <= i <= j <= |line| && Trim(line) == line[i..j] && AllSpace(line[..i]) && AllSpace(line[j..]);
    assert i == 0;
    assert j == |line|;
    assert Trim(line) == line;
    assert line != "---" by { assert line[0] == '#'; }
    assert line != "";
  }

  /** A bare "#" line is a paragraph. */
  lemma BareHashIsParagraph()
    ensures RenderLine("#") == Paragraph("#")
  {
    assert Trim("#") == "#" by {
      assert !IsSpace('#');
    }
  }
}
