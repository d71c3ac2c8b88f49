/** One input each at which a toggle of the toolbar does not restore, or a selection leaves the text. */
module Misses {
  import opened Text
  import opened Lines
  import Stars
  import InlineCode
  import Fence
  import Cells
  import Table
  import TableToggle

  /** Text a\*, with the letter in italics: the author's escape is taken for the toolbar's. */
  lemma {:induction false} ItalicsMiss()
    ensures var first := Stars.Stars("", "a", "\\*", 1);
            InRange(first) && Stars.Again(first, 1) != Edit("a\\*", 0, 1)
  {
    hide *;
    EscapedStar();
    Stars.ToggleRestores("", "a", "\\*", 1);
    assert "" + "a" + "\\*" == "a\\*";
  }

  lemma {:induction false} EscapedStar()
    ensures Stars.Wraps("", "a", "\\*", 1) && !Stars.Restorable("", "\\*") && Stars.Content("a") == "a"
  {
  }

  /** Text a\`, with the letter as code. */
  lemma {:induction false} CodeMisses()
    ensures var first := InlineCode.Code("", "a", "\\`");
            InRange(first) && InlineCode.Again(first) != Edit("a\\`", 0, 1)
  {
    hide *;
    EscapedBacktick();
    InlineCode.ToggleRestores("", "a", "\\`");
    assert "\\`"[0..] == "\\`" && "" + "a" + "\\`" == "a\\`";
  }

  lemma {:induction false} EscapedBacktick()
    ensures !InlineCode.Unwraps("", "a", "\\`") && LeadingRun("\\`", '`') == 0 && StartsWith("\\`", "\\`")
    ensures InlineCode.Content("a") == "a"
  {
  }

  /** A lone carriage return: the break that closing puts after it becomes part of a CRLF. */
  lemma {:induction false} FenceAbsorbs() returns (lines: seq<Line>, e: Edit)
    ensures lines == [Line("\r", "")] && Canonical(lines) && Join(lines) == "\r"
    ensures e == Fence.Fenced(lines, 0, 1) && InRange(e) && Canonical(Split(e.value)) && Join(Split(e.value)) == e.value
    ensures Fence.Fenced(Split(e.value), e.start, e.end) != Edit("\r", 0, 1)
  {
    hide *;
    lines := [Line("\r", "")];
    LoneReturn(lines);
    e := Fence.Fenced(lines, 0, 1);
    Fence.ToggleRestores(lines, 0, 1, 0, 0, e, false);
  }

  lemma {:induction false} LoneReturn(lines: seq<Line>)
    requires lines == [Line("\r", "")]
    ensures Canonical(lines) && Join(lines) == "\r" && Start(lines, 0) == 0 && Inner(lines, 0, 0) == "\r"
    ensures Touched(lines, 0, 1) == (0, 0) && !Fence.Enclosed(lines, 0, 0) && Fence.Absorbs(lines, 0, 0)
  {
    assert lines[1..] == [] && lines[..0] == [] && lines[0..0] == [];
    assert Join([]) == "" && "\r" + "" == "\r";
    assert FirstEnding(lines, 0, 0) == "";
  }

  /** Breaks of both kinds, the second line selected with its CRLF: the second call reaches the closing fence. */
  lemma {:induction false} FenceSpills() returns (lines: seq<Line>, e: Edit)
    ensures lines == [Line("a", "\n"), Line("b", "\r\n"), Line("", "")] && Canonical(lines) && Join(lines) == "a\nb\r\n"
    ensures e == Fence.Fenced(lines, 0, 5) && InRange(e) && Canonical(Split(e.value)) && Join(Split(e.value)) == e.value
    ensures Fence.Fenced(Split(e.value), e.start, e.end) != Edit("a\nb\r\n", 0, 5)
  {
    hide *;
    lines := [Line("a", "\n"), Line("b", "\r\n"), Line("", "")];
    MixedBreaks(lines);
    e := Fence.Fenced(lines, 0, 5);
    Fence.ToggleRestores(lines, 0, 5, 0, 1, e, false);
  }

  lemma {:induction false} MixedBreaks(lines: seq<Line>)
    requires lines == [Line("a", "\n"), Line("b", "\r\n"), Line("", "")]
    ensures Canonical(lines) && Join(lines) == "a\nb\r\n" && Start(lines, 0) == 0 && Inner(lines, 0, 1) != ""
    ensures Touched(lines, 0, 5) == (0, 1) && !Fence.Enclosed(lines, 0, 1) && Fence.Spills(lines, 0, 1, 5)
  {
    hide Join, Fence.IsFence, Canonical, IndexAt, LocalEnding;
    MixedText(lines);
    JoinOfTwo(lines[0], lines[1]);
    assert lines[..0] == [] && lines[0..1] == [lines[0]];
    LineOf(lines, 0, 0);
    LineOf(lines, 4, 1);
    EndingOf(lines, 0, 1);
  }

  lemma {:induction false} MixedText(lines: seq<Line>)
    requires lines == [Line("a", "\n"), Line("b", "\r\n"), Line("", "")]
    ensures Canonical(lines) && Join(lines) == "a\nb\r\n"
  {
    hide Join, EndsWith;
    OneCharacter();
    JoinOfThree(lines[0], lines[1], lines[2]);
    hide Canonical;
    Concatenated();
  }

  lemma {:induction false} Concatenated()
    ensures "a" + "\n" == "a\n" && "b" + "\r\n" == "b\r\n" && "" + "" == ""
    ensures "a\n" + "b\r\n" + "" == "a\nb\r\n"
  {
    assert "a\n" + "b\r\n" == "a\nb\r\n";
  }

  lemma {:induction false} OneCharacter()
    ensures !EndsWith("a", "\r") && '\n' !in "a" && '\n' !in "b" && '\n' !in ""
  {
  }

  /** The line at a position within its text or break. */
  lemma {:induction false} LineOf(lines: seq<Line>, position: nat, i: nat)
    requires i <= 1 < |lines| && position < (if i == 0 then 0 else |Whole(lines[0])|) + |Whole(lines[i])|
    requires i == 1 ==> position >= |Whole(lines[0])|
    ensures IndexAt(lines, position) == i
  {
    if i == 1 {
      assert lines[1..][0] == lines[1];
      assert IndexAt(lines[1..], position - |Whole(lines[0])|) == 0;
    }
  }

  lemma {:induction false} EndingOf(lines: seq<Line>, first: nat, last: nat)
    requires first <= last < |lines| && lines[first].eol != ""
    ensures LocalEnding(lines, first, last) == lines[first].eol
  {
  }

  /** A body row right behind the touched line: it is taken for the table's own. */
  lemma {:induction false} TableContinues() returns (lines: seq<Line>, e: Edit)
    ensures lines == [Line("a", "\n"), Line("| b" + Cells.CELL, "")] && Canonical(lines)
            && Join(lines) == "a\n| b | Cell 2 |"
    ensures e == Table.Tabled(lines, 0, 1) && InRange(e) && Canonical(Split(e.value)) && Join(Split(e.value)) == e.value
    ensures Table.Tabled(Split(e.value), e.start, e.end) != Edit(Join(lines), 0, 1)
  {
    hide *;
    lines := [Line("a", "\n"), Line("| b" + Cells.CELL, "")];
    RowBehind(lines);
    e := Table.Tabled(lines, 0, 1);
    TableToggle.ToggleRestores(lines, 0, 1, 0, 0, e);
    TableToggle.SettlesInside(lines, 0, 0, 0, 0);
    TableToggle.SettlesInside(lines, 0, 0, 0, 1);
    Stays(lines);
  }

  lemma {:induction false} RowBehind(lines: seq<Line>)
    requires lines == [Line("a", "\n"), Line("| b" + Cells.CELL, "")]
    ensures Canonical(lines) && Join(lines) == "a\n| b | Cell 2 |" && Start(lines, 0) == 0 && Inner(lines, 0, 0) == "a"
    ensures Touched(lines, 0, 1) == (0, 0) && Table.Recognized(lines, 0, 0, 0).None? && TableToggle.Continues(lines, 0)
  {
    hide Cells.IsRow, IndexAt, Join, Canonical, Cells.IsSeparator, Table.BodyEnd, EndsWith;
    var text := "| b" + Cells.CELL;
    assert text == "| b | Cell 2 |";
    RowText(lines, text);
    JoinOfTwo(lines[0], lines[1]);
    assert lines[..0] == [] && lines[0..0] == [] && "" + "a" == "a";
    LineOf(lines, 0, 0);
    RowAndNoHeader(text);
  }

  lemma {:induction false} RowText(lines: seq<Line>, text: string)
    requires lines == [Line("a", "\n"), Line(text, "")] && text == "| b | Cell 2 |"
    ensures Canonical(lines) && Join(lines) == "a\n| b | Cell 2 |"
  {
    hide Join, EndsWith;
    OneCharacter();
    OneRow();
    JoinOfTwo(lines[0], lines[1]);
    hide Canonical;
    RowConcatenated(text);
  }

  lemma {:induction false} OneRow()
    ensures '\n' !in "| b | Cell 2 |"
  {
  }

  lemma {:induction false} RowConcatenated(text: string)
    requires text == "| b | Cell 2 |"
    ensures "a" + "\n" == "a\n" && text + "" == text && "a\n" + text == "a\n| b | Cell 2 |"
  {
  }

  lemma {:induction false} RowAndNoHeader(text: string)
    requires text == "| b | Cell 2 |"
    ensures !Cells.IsRow("a", Cells.COLUMN) && Cells.IsRow(text, Cells.CELL)
  {
    assert text[..2] == Cells.LEAD;
    assert text[|text| - |Cells.CELL|..] == Cells.CELL;
  }

  lemma {:induction false} Stays(lines: seq<Line>)
    requires |lines| == 2 && Inner(lines, 0, 0) != ""
    requires TableToggle.Settled(lines, 0, 0, 0) == 0 && TableToggle.Settled(lines, 0, 0, 1) == 1
    ensures TableToggle.Expected(lines, 0, 0, 0, 1) == (0, 1)
  {
  }

  /** Three lines with breaks of both kinds, all touched: the second call gives them back with breaks of one kind. */
  lemma {:induction false} TableEvens() returns (lines: seq<Line>, e: Edit)
    ensures lines == [Line("a", "\n"), Line("b", "\r\n"), Line("c", "")] && Canonical(lines)
            && Join(lines) == "a\nb\r\nc"
    ensures e == Table.Tabled(lines, 0, 6) && InRange(e) && Canonical(Split(e.value)) && Join(Split(e.value)) == e.value
    ensures Table.Tabled(Split(e.value), e.start, e.end) != Edit(Join(lines), 0, 6)
  {
    hide *;
    lines := [Line("a", "\n"), Line("b", "\r\n"), Line("c", "")];
    UnlikeText(lines);
    UnlikeLines(lines);
    e := Table.Tabled(lines, 0, 6);
    TableToggle.ToggleRestores(lines, 0, 6, 0, 2, e);
    TableToggle.SettlesInside(lines, 0, 2, 0, 0);
    TableToggle.SettlesInside(lines, 0, 2, 2, 6);
    StaysThrough(lines);
  }

  lemma {:induction false} UnlikeText(lines: seq<Line>)
    requires lines == [Line("a", "\n"), Line("b", "\r\n"), Line("c", "")]
    ensures Canonical(lines) && Join(lines) == "a\nb\r\nc"
  {
    hide Join, EndsWith;
    OneCharacter();
    JoinOfThree(lines[0], lines[1], lines[2]);
    hide Canonical;
    UnlikeConcatenated();
  }

  lemma {:induction false} UnlikeConcatenated()
    ensures "a" + "\n" == "a\n" && "b" + "\r\n" == "b\r\n" && "c" + "" == "c"
    ensures "a\n" + "b\r\n" + "c" == "a\nb\r\nc" && '\n' !in "c"
  {
    assert "a\n" + "b\r\n" == "a\nb\r\n";
  }

  lemma {:induction false} UnlikeLines(lines: seq<Line>)
    requires lines == [Line("a", "\n"), Line("b", "\r\n"), Line("c", "")]
    ensures Touched(lines, 0, 6) == (0, 2) && Start(lines, 0) == 0 && Start(lines, 2) == 5 && Inner(lines, 0, 2) != ""
    ensures Table.Recognized(lines, 0, 0, 2).None? && !TableToggle.Alike(lines, 0, 2)
  {
    hide Cells.IsRow, IndexAt, Join, Cells.IsSeparator, Table.BodyEnd, LocalEnding;
    JoinOfThree(lines[0], lines[1], lines[2]);
    assert lines[..0] == [] && lines[..2] == [lines[0], lines[1]] && lines[0..2] == [lines[0], lines[1]];
    LineOf(lines, 0, 0);
    LastLineOf(lines, 5);
    EndingOf(lines, 0, 2);
    RowAndNoHeader("| b | Cell 2 |");
    assert lines[1].eol != LocalEnding(lines, 0, 2);
  }

  lemma {:induction false} LastLineOf(lines: seq<Line>, position: nat)
    requires |lines| == 3 && Canonical(lines) && |Whole(lines[0])| + |Whole(lines[1])| <= position
    ensures IndexAt(lines, position) == 2
  {
    var rest := lines[1..];
    assert rest[1..] == [lines[2]];
    assert IndexAt([lines[2]], position - |Whole(lines[0])| - |Whole(lines[1])|) == 0;
    assert IndexAt(rest, position - |Whole(lines[0])|) == 1;
  }

  lemma {:induction false} StaysThrough(lines: seq<Line>)
    requires |lines| == 3 && Inner(lines, 0, 2) != ""
    requires TableToggle.Settled(lines, 0, 2, 0) == 0 && TableToggle.Settled(lines, 0, 2, 6) == 6
    ensures TableToggle.Expected(lines, 0, 2, 0, 6) == (0, 6)
  {
  }

  /** A fenced line selected with its break where the closing fence ends the text: the end lands behind the text. */
  lemma {:induction false} RangeLeavesText()
    ensures var lines := [Line("```", "\n"), Line("a", "\n"), Line("```", "")];
            && Canonical(lines) && Join(lines) == "```\na\n```" && Fence.Fenced(lines, 4, 6) == Edit("a", 0, 2)
  {
    var lines := [Line("```", "\n"), Line("a", "\n"), Line("```", "")];
    hide *;
    FencedText(lines);
    FencedLine(lines);
    Fence.FencedAt(lines, 4, 6, 1, 1);
    OpenedLine(lines);
  }

  lemma {:induction false} FencedText(lines: seq<Line>)
    requires lines == [Line("```", "\n"), Line("a", "\n"), Line("```", "")]
    ensures Canonical(lines) && Join(lines) == "```\na\n```"
  {
    hide Join, EndsWith;
    NoReturn();
    JoinOfThree(lines[0], lines[1], lines[2]);
    hide Canonical;
    FencedConcatenated();
  }

  lemma {:induction false} NoReturn()
    ensures !EndsWith("a", "\r") && !EndsWith("```", "\r") && '\n' !in "a" && '\n' !in "```"
  {
  }

  lemma {:induction false} FencedConcatenated()
    ensures "```" + "\n" == "```\n" && "a" + "\n" == "a\n" && "```" + "" == "```"
    ensures "```\n" + "a\n" + "```" == "```\na\n```"
  {
    assert "```\n" + "a\n" == "```\na\n";
  }

  lemma {:induction false} FencedLine(lines: seq<Line>)
    requires lines == [Line("```", "\n"), Line("a", "\n"), Line("```", "")]
    ensures Touched(lines, 4, 6) == (1, 1) && Fence.Enclosed(lines, 1, 1) && Start(lines, 1) == 4
  {
    hide IndexAt, Join;
    JoinOfTwo(lines[0], lines[1]);
    assert lines[..1] == [lines[0]];
    LineOf(lines, 4, 1);
    LineOf(lines, 5, 1);
    ThreeBackticks();
  }

  lemma {:induction false} ThreeBackticks()
    ensures Fence.IsFence("```")
  {
  }

  lemma {:induction false} OpenedLine(lines: seq<Line>)
    requires lines == [Line("```", "\n"), Line("a", "\n"), Line("```", "")] && Fence.Enclosed(lines, 1, 1)
    ensures Fence.Opened(lines, 1, 1, 0, 2) == Edit("a", 0, 2)
  {
    hide Join, Fence.IsFence, Fence.Enclosed;
    JoinOfTwo(lines[0], lines[1]);
    assert lines[..0] == [] && lines[1..1] == [] && lines[3..] == [];
    assert "" + "a" == "a" && "" + "" == "" && "a" + "" == "a";
  }

  lemma {:induction false} JoinOfTwo(a: Line, b: Line)
    ensures Join([]) == "" && Join([a]) == Whole(a) && Join([a, b]) == Whole(a) + Whole(b)
  {
    JoinWithLast([], a);
    JoinWithLast([a], b);
    assert [] + [a] == [a] && [a] + [b] == [a, b] && "" + Whole(a) == Whole(a);
  }

  lemma {:induction false} JoinOfThree(a: Line, b: Line, c: Line)
    ensures Join([]) == "" && Join([a]) == Whole(a) && Join([a, b]) == Whole(a) + Whole(b)
    ensures Join([b, c]) == Whole(b) + Whole(c) && Join([a, b, c]) == Whole(a) + Whole(b) + Whole(c)
  {
    hide Join, Whole;
    JoinOfTwo(a, b);
    JoinOfTwo(b, c);
    JoinWithLast([a, b], c);
    assert [a, b] + [c] == [a, b, c];
  }
}
