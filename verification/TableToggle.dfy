/**
 Making a table and taking it apart again: exactly when the second call gives the
 text back, and where the selection settles.
 */
module TableToggle {
  import opened Options
  import opened Text
  import opened Lines
  import opened Cells
  import opened Table

  /** The touched lines' breaks, the last one's apart, are all the table's. */
  predicate Alike(lines: seq<Line>, first: nat, last: nat)
    requires first <= last < |lines|
  {
    forall i | first <= i < last :: lines[i].eol == LocalEnding(lines, first, last)
  }

  /** The line after the touched ones is shaped like a body row. */
  predicate Continues(lines: seq<Line>, last: nat) {
    last + 1 < |lines| && IsRow(lines[last + 1].text, CELL)
  }

  function TableOf(lines: seq<Line>, first: nat, last: nat): seq<Line>
    requires first <= last < |lines|
  {
    TableRows(SourceRows(lines, first, last), LocalEnding(lines, first, last), lines[last].eol)
  }

  // ---- The made lines ----

  lemma {:induction false} RowsArePlain(lines: seq<Line>, first: nat, last: nat)
    requires Canonical(lines) && first <= last < |lines|
    ensures forall k | 0 <= k < |SourceRows(lines, first, last)| :: '\n' !in SourceRows(lines, first, last)[k]
  {
    forall i | first <= i <= last
      ensures '\n' !in lines[i].text
    {
      assert i < |lines| - 1 ==> Terminated(lines[i]);
    }
  }

  lemma {:induction false} RowEnds(t: string, suffix: string, eol: string)
    requires '\n' !in t && suffix in {COLUMN, CELL} && eol in {"\n", "\r\n"}
    ensures Terminated(Line(RowText(t, suffix), eol))
  {
    EscapingIsPlain(t);
    RowReads(t, suffix);
    var text := RowText(t, suffix);
    assert text[|text| - 1..][0] == '|';
    assert forall i | 0 <= i < |text| :: text[i] != '\n';
  }

  lemma {:induction false} SeparatorEnds(eol: string)
    requires eol in {"\n", "\r\n"}
    ensures Terminated(Line(SEPARATOR, eol))
  {
    assert SEPARATOR[|SEPARATOR| - 1..][0] == '|';
  }

  /** A line of the table, other than the last, or the last where a break follows. */
  lemma {:induction false} TableLineEnds(rows: seq<string>, eol: string, lastEol: string, i: nat)
    requires rows != [] && i <= |rows| && forall k | 0 <= k < |rows| :: '\n' !in rows[k]
    requires eol in {"\n", "\r\n"} && (i == |rows| ==> lastEol in {"\n", "\r\n"})
    ensures Terminated(TableRows(rows, eol, lastEol)[i])
  {
    if i == 1 {
      SeparatorEnds(TableRows(rows, eol, lastEol)[1].eol);
    } else {
      var k := if i == 0 then 0 else i - 1;
      RowOfTable(rows, eol, lastEol, k);
      RowEnds(rows[k], Suffix(k), TableRows(rows, eol, lastEol)[i].eol);
    }
  }

  lemma {:induction false} LastTableLine(rows: seq<string>, eol: string, lastEol: string)
    requires rows != [] && forall k | 0 <= k < |rows| :: '\n' !in rows[k]
    ensures var line := TableRows(rows, eol, lastEol)[|rows|]; line.eol == lastEol && '\n' !in line.text
  {
    if |rows| > 1 {
      RowOfTable(rows, eol, lastEol, |rows| - 1);
      hide TableRows;
      RowIsPlain(rows[|rows| - 1], CELL);
    }
  }

  lemma {:induction false} RowIsPlain(t: string, suffix: string)
    requires '\n' !in t && suffix in {COLUMN, CELL}
    ensures '\n' !in RowText(t, suffix)
  {
    EscapingIsPlain(t);
    var text, e := RowText(t, suffix), Escaping(t);
    assert '\n' !in LEAD + e;
  }

  /** Every line of the table reads back as written, the last one unless it ends the text. */
  lemma {:induction false} TableTerminates(lines: seq<Line>, first: nat, last: nat)
    requires Canonical(lines) && first <= last < |lines|
    ensures var t := TableOf(lines, first, last);
            && t != [] && (forall i | 0 <= i < |t| - 1 :: Terminated(t[i]))
            && (last < |lines| - 1 ==> Terminated(t[|t| - 1]))
            && t[|t| - 1].eol == lines[last].eol && '\n' !in t[|t| - 1].text
  {
    assert last < |lines| - 1 ==> Terminated(lines[last]);
    hide SourceRows, TableRows, LocalEnding, Canonical, EndsWith;
    RowsArePlain(lines, first, last);
    LocalEndingIsBreak(lines, first, last);
    TableLinesEnd(SourceRows(lines, first, last), LocalEnding(lines, first, last), lines[last].eol);
  }

  lemma {:induction false} TableLinesEnd(rows: seq<string>, eol: string, lastEol: string)
    requires rows != [] && (forall k | 0 <= k < |rows| :: '\n' !in rows[k]) && eol in {"\n", "\r\n"}
    ensures var t := TableRows(rows, eol, lastEol);
            && (forall i | 0 <= i < |t| - 1 :: Terminated(t[i]))
            && (lastEol in {"\n", "\r\n"} ==> Terminated(t[|t| - 1]))
            && t[|t| - 1].eol == lastEol && '\n' !in t[|t| - 1].text
  {
    hide TableRows, Terminated;
    LastTableLine(rows, eol, lastEol);
    forall i | 0 <= i <= |rows| && (i < |rows| || lastEol in {"\n", "\r\n"})
      ensures Terminated(TableRows(rows, eol, lastEol)[i])
    {
      TableLineEnds(rows, eol, lastEol, i);
    }
  }

  lemma {:induction false} CanonicalTail(t: seq<Line>, rest: seq<Line>, lastEol: string)
    requires t != [] && (forall i | 0 <= i < |t| - 1 :: Terminated(t[i])) && t[|t| - 1].eol == lastEol
             && '\n' !in t[|t| - 1].text
    requires if rest == [] then lastEol == "" else Terminated(t[|t| - 1]) && Canonical(rest)
    ensures Canonical(t + rest)
  {
    if rest != [] {
      CanonicalAppend(t, rest);
    } else {
      assert t + rest == t;
    }
  }

  lemma {:induction false} MadeIsCanonical(lines: seq<Line>, first: nat, last: nat)
    requires Canonical(lines) && first <= last < |lines|
    ensures Canonical(MadeLines(lines, first, last))
  {
    hide TableOf, Terminated, MadeLines, AllTerminated, SourceRows, LocalEnding, TableRows;
    var t, rest := TableOf(lines, first, last), lines[last + 1..];
    CanonicalParts(lines, first);
    assert last == |lines| - 1 ==> lines[last].eol == "";
    if last < |lines| - 1 {
      CanonicalParts(lines, last + 1);
    }
    MadeInOrder(lines, first, last);
    TableTerminates(lines, first, last);
    hide Canonical;
    CanonicalTail(t, rest, lines[last].eol);
    CanonicalAppend(lines[..first], t + rest);
  }

  lemma {:induction false} MadeInOrder(lines: seq<Line>, first: nat, last: nat)
    requires first <= last < |lines|
    ensures MadeLines(lines, first, last) == lines[..first] + (TableOf(lines, first, last) + lines[last + 1..])
  {
    hide SourceRows, LocalEnding, TableRows;
  }

  /** Where things are in the made lines. */
  lemma {:induction false} MadeShape(lines: seq<Line>, first: nat, last: nat)
    requires Canonical(lines) && first <= last < |lines|
    ensures var C := MadeLines(lines, first, last);
            && |C| == |lines| + 1 && |TableOf(lines, first, last)| == last - first + 2
            && C[..first] == lines[..first] && C[last + 2..] == lines[last + 1..]
            && C[first + 1].text == SEPARATOR && C[first].eol == LocalEnding(lines, first, last)
            && C[last + 1].eol == lines[last].eol
            && forall i | 0 <= i < last - first + 2 :: C[first + i] == TableOf(lines, first, last)[i]
  {
    MadeLength(lines, first, last);
    hide SourceRows, LocalEnding, Canonical, TableRows;
    TableEdges(SourceRows(lines, first, last), LocalEnding(lines, first, last), lines[last].eol);
    ThreeRuns(lines[..first], TableOf(lines, first, last), lines[last + 1..]);
  }

  lemma {:induction false} ThreeRuns(a: seq<Line>, b: seq<Line>, c: seq<Line>)
    ensures var s := a + b + c;
            && |s| == |a| + |b| + |c| && s[..|a|] == a && s[|a| + |b|..] == c
            && forall i | 0 <= i < |b| :: s[|a| + i] == b[i]
  {
  }

  lemma {:induction false} TableEdges(rows: seq<string>, eol: string, lastEol: string)
    requires rows != []
    ensures var t := TableRows(rows, eol, lastEol);
            && t[0].eol == eol && t[1].text == SEPARATOR && t[|t| - 1].eol == lastEol
  {
    if |rows| > 1 {
      RowOfTable(rows, eol, lastEol, |rows| - 1);
    }
  }

  lemma {:induction false} MadeRow(lines: seq<Line>, first: nat, last: nat, k: nat)
    requires Canonical(lines) && first <= last < |lines| && k <= last - first
    ensures |SourceRows(lines, first, last)| == last - first + 1 && |MadeLines(lines, first, last)| == |lines| + 1
    ensures var line := MadeLines(lines, first, last)[RowIndex(first, k)]; var t := SourceRows(lines, first, last)[k];
            && line.text == RowText(t, Suffix(k)) && IsRow(line.text, Suffix(k))
            && Encoded(line.text, Suffix(k)) == Escaping(t)
            && |Whole(line)| >= |LEAD| + |Escaping(t)| + |Suffix(k)|
  {
    hide TableRows, SourceRows, LocalEnding, MadeLines, Escaping, RowText, IsRow, Encoded, Canonical;
    MadeLength(lines, first, last);
    MadeShape(lines, first, last);
    RowOfTable(SourceRows(lines, first, last), LocalEnding(lines, first, last), lines[last].eol, k);
    RowReads(SourceRows(lines, first, last)[k], Suffix(k));
    assert MadeLines(lines, first, last)[first + RowIndex(0, k)] == TableOf(lines, first, last)[RowIndex(0, k)];
  }

  // ---- The second call's selection ----

  /** A row and a column of the source rows. */
  predicate InRows(lines: seq<Line>, first: nat, last: nat, rc: (nat, nat))
    requires first <= last < |lines|
  {
    rc.0 < |SourceRows(lines, first, last)| && rc.1 <= |SourceRows(lines, first, last)[rc.0]|
  }

  /** Where that column is in the made text. */
  function At(lines: seq<Line>, first: nat, last: nat, rc: (nat, nat)): nat
    requires Canonical(lines) && first <= last < |lines| && InRows(lines, first, last, rc)
  {
    MadeLength(lines, first, last);
    Cell(MadeLines(lines, first, last), first, rc.0, SourceRows(lines, first, last)[rc.0][..rc.1])
  }

  predicate NotAfter(a: (nat, nat), b: (nat, nat)) {
    a.0 < b.0 || (a.0 == b.0 && a.1 <= b.1)
  }

  lemma {:induction false} SuffixLength(k: nat)
    ensures |Suffix(k)| > 0
  {
  }

  /** Such a position lies behind the lead and before the suffix of its row's line. */
  lemma {:induction false} AtInLine(lines: seq<Line>, first: nat, last: nat, rc: (nat, nat))
    requires Canonical(lines) && first <= last < |lines| && InRows(lines, first, last, rc)
    ensures var C, i := MadeLines(lines, first, last), RowIndex(first, rc.0);
            && i < |C|
            && Start(C, i) + |LEAD| <= At(lines, first, last, rc)
            && At(lines, first, last, rc) + |Suffix(rc.0)| <= Start(C, i) + |C[i].text|
            && Start(C, i + 1) == Start(C, i) + |Whole(C[i])|
    ensures IndexAt(MadeLines(lines, first, last), At(lines, first, last, rc)) == RowIndex(first, rc.0)
    ensures At(lines, first, last, rc) > 0
            && IndexAt(MadeLines(lines, first, last), At(lines, first, last, rc) - 1) == RowIndex(first, rc.0)
  {
    hide MadeLines, SourceRows, Escaping, Start, IndexAt, Canonical, IsRow, Encoded, RowText, Suffix, Join;
    MadeLength(lines, first, last);
    MadeRow(lines, first, last, rc.0);
    var C, i, t := MadeLines(lines, first, last), RowIndex(first, rc.0), SourceRows(lines, first, last)[rc.0];
    EscapingMonotone(t, rc.1, |t|);
    assert t[..|t|] == t;
    RowReads(t, Suffix(rc.0));
    assert |Suffix(rc.0)| > 0 by {
      SuffixLength(rc.0);
    }
    StartNext(C, i);
    IndexAtUnique(C, At(lines, first, last, rc), i);
    IndexAtUnique(C, At(lines, first, last, rc) - 1, i);
  }

  /** The order of rows and columns is the order of positions. */
  lemma {:induction false} AtMonotone(lines: seq<Line>, first: nat, last: nat, a: (nat, nat), b: (nat, nat))
    requires Canonical(lines) && first <= last < |lines| && InRows(lines, first, last, a)
             && InRows(lines, first, last, b)
    requires NotAfter(a, b)
    ensures At(lines, first, last, a) <= At(lines, first, last, b)
  {
    hide MadeLines, SourceRows, Start, IndexAt, Canonical, Escaping;
    MadeLength(lines, first, last);
    if a.0 < b.0 {
      AtInLine(lines, first, last, a);
      AtInLine(lines, first, last, b);
      StartMonotone(MadeLines(lines, first, last), RowIndex(first, a.0) + 1, RowIndex(first, b.0));
    } else {
      EscapingMonotone(SourceRows(lines, first, last)[a.0], a.1, b.1);
    }
  }

  lemma {:induction false} AtInText(lines: seq<Line>, first: nat, last: nat, rc: (nat, nat))
    requires Canonical(lines) && first <= last < |lines| && InRows(lines, first, last, rc)
    ensures At(lines, first, last, rc) <= |Join(MadeLines(lines, first, last))|
  {
    AtInLine(lines, first, last, rc);
    var C := MadeLines(lines, first, last);
    hide MadeLines, IndexAt, Canonical, At;
    StartMonotone(C, RowIndex(first, rc.0) + 1, |C|);
    assert C[..|C|] == C;
  }

  /** The second call touches exactly the rows its selection is in. */
  lemma {:induction false} SecondTouches(lines: seq<Line>, first: nat, last: nat, a: (nat, nat), b: (nat, nat))
    requires Canonical(lines) && first <= last < |lines| && InRows(lines, first, last, a)
             && InRows(lines, first, last, b)
    requires NotAfter(a, b)
    ensures var C, s, e := MadeLines(lines, first, last), At(lines, first, last, a), At(lines, first, last, b);
            && Canonical(C) && s <= e <= |Join(C)|
            && Touched(C, s, e) == (RowIndex(first, a.0), RowIndex(first, b.0))
  {
    hide MadeLines, IndexAt, Canonical, At, Join, Start, SourceRows, InRows;
    MadeIsCanonical(lines, first, last);
    AtMonotone(lines, first, last, a, b);
    AtInText(lines, first, last, b);
    AtInLine(lines, first, last, a);
    AtInLine(lines, first, last, b);
  }

  // ---- The second call finds the table ----

  /** No body row and no separator is a header. */
  lemma {:induction false} NotAHeader(lines: seq<Line>, first: nat, last: nat, i: nat)
    requires Canonical(lines) && first <= last < |lines| && first < i <= last + 1
    ensures |MadeLines(lines, first, last)| == |lines| + 1 && !IsRow(MadeLines(lines, first, last)[i].text, COLUMN)
    ensures i > first + 1 ==> IsRow(MadeLines(lines, first, last)[i].text, CELL)
  {
    hide MadeLines, SourceRows, Escaping, RowText, Encoded, Canonical, IsRow;
    MadeShape(lines, first, last);
    if i == first + 1 {
      SeparatorIsNoRow();
    } else {
      assert RowIndex(first, i - first - 1) == i && Suffix(i - first - 1) == CELL;
      MadeRow(lines, first, last, i - first - 1);
      BodyRowIsNoHeader(MadeLines(lines, first, last)[i].text);
    }
  }

  lemma {:induction false} SeparatorIsNoRow()
    ensures !IsRow(SEPARATOR, COLUMN)
  {
    SeparatorFacts();
  }

  lemma {:induction false} BodyRowIsNoHeader(text: string)
    requires IsRow(text, CELL)
    ensures !IsRow(text, COLUMN)
  {
    NotBothRows(text);
  }

  lemma {:induction false} BodyEndSkips(lines: seq<Line>, i: nat, j: nat)
    requires i <= j <= |lines| && forall k | i <= k < j :: IsRow(lines[k].text, CELL)
    ensures BodyEnd(lines, i) == BodyEnd(lines, j)
    decreases j - i
  {
    if i < j {
      BodyEndSkips(lines, i + 1, j);
    }
  }

  lemma {:induction false} MadeRowsAreBody(lines: seq<Line>, first: nat, last: nat)
    requires Canonical(lines) && first <= last < |lines|
    ensures |MadeLines(lines, first, last)| == |lines| + 1
    ensures forall k | first + 2 <= k < last + 2 :: IsRow(MadeLines(lines, first, last)[k].text, CELL)
  {
    hide *;
    MadeShape(lines, first, last);
    forall k | first + 2 <= k < last + 2
      ensures IsRow(MadeLines(lines, first, last)[k].text, CELL)
    {
      NotAHeader(lines, first, last, k);
    }
  }

  /** The line behind the made rows is the line behind the touched ones. */
  lemma {:induction false} BehindMade(lines: seq<Line>, first: nat, last: nat)
    requires Canonical(lines) && first <= last && last + 1 < |lines|
    ensures |MadeLines(lines, first, last)| == |lines| + 1 && MadeLines(lines, first, last)[last + 2] == lines[last + 1]
  {
    hide *;
    MadeShape(lines, first, last);
    var C := MadeLines(lines, first, last);
    assert C[last + 2] == C[last + 2..][0] && lines[last + 1] == lines[last + 1..][0];
  }

  lemma {:induction false} BodyEndStep(lines: seq<Line>, i: nat)
    requires i <= |lines|
    ensures BodyEnd(lines, i) == i <==> !(i < |lines| && IsRow(lines[i].text, CELL))
    ensures BodyEnd(lines, i) >= i
  {
  }

  /** The body goes on behind the made rows exactly when the next line is shaped like one. */
  lemma {:induction false} BodyOfMade(lines: seq<Line>, first: nat, last: nat)
    requires Canonical(lines) && first <= last < |lines|
    ensures var C := MadeLines(lines, first, last);
            && |C| == |lines| + 1 && last + 2 <= BodyEnd(C, first + 2)
            && (BodyEnd(C, first + 2) == last + 2 <==> !Continues(lines, last))
  {
    hide MadeLines, IsRow, Canonical, BodyEnd;
    var C := MadeLines(lines, first, last);
    MadeRowsAreBody(lines, first, last);
    BodyEndSkips(C, first + 2, last + 2);
    BodyEndStep(C, last + 2);
    if last + 1 < |lines| {
      BehindMade(lines, first, last);
    }
  }

  lemma {:induction false} HeaderIsCandidate(lines: seq<Line>, first: nat, last: nat, f: nat, l: nat)
    requires Canonical(lines) && first <= last < |lines| && first <= f && f != first + 1 && l <= last + 1
    ensures Candidate(MadeLines(lines, first, last), first, f, l)
  {
    MadeShape(lines, first, last);
    MadeRow(lines, first, last, 0);
    SeparatorFacts();
    BodyOfMade(lines, first, last);
    hide MadeLines, IsRow, Canonical, BodyEnd, IsSeparator, SourceRows, Escaping, RowText;
  }

  /** The search passes lines that are no header and stops at the first candidate. */
  lemma {:induction false} SearchPasses(C: seq<Line>, first: nat, h: nat, f: nat, l: nat)
    requires first <= h < |C| && Candidate(C, first, f, l)
    requires forall i | first < i <= h :: !IsRow(C[i].text, COLUMN)
    ensures Recognized(C, h, f, l) == Some(first)
    decreases h
  {
    hide IsRow, IsSeparator, BodyEnd;
    if h > first {
      SearchPasses(C, first, h - 1, f, l);
    }
  }

  lemma {:induction false} SecondRecognizes(lines: seq<Line>, first: nat, last: nat, f: nat, l: nat)
    requires Canonical(lines) && first <= last < |lines| && first <= f <= last + 1 && f != first + 1 && l <= last + 1
    ensures Recognized(MadeLines(lines, first, last), f, f, l) == Some(first)
  {
    var C := MadeLines(lines, first, last);
    HeaderIsCandidate(lines, first, last, f, l);
    MadeLength(lines, first, last);
    forall i | first < i <= f
      ensures !IsRow(C[i].text, COLUMN)
    {
      NotAHeader(lines, first, last, i);
    }
    hide MadeLines, IsRow, Candidate, Canonical;
    SearchPasses(C, first, f, f, l);
  }

  // ---- What the second call gives back ----

  /** The end of the found table. */
  function FoundEnd(lines: seq<Line>, first: nat, last: nat): (e: nat)
    requires Canonical(lines) && first <= last < |lines|
    ensures IsTable(MadeLines(lines, first, last), first, e) && e >= last + 2
  {
    BodyOfMade(lines, first, last);
    HeaderIsCandidate(lines, first, last, first, first);
    CandidateIsTable(MadeLines(lines, first, last), first, first, first);
    BodyEnd(MadeLines(lines, first, last), first + 2)
  }

  /** Where a row starts among rows joined by `eol`. */
  function Offset(rows: seq<string>, eol: string, row: nat): nat
    requires row <= |rows|
  {
    if row == 0 then 0 else Offset(rows, eol, row - 1) + |rows[row - 1]| + |eol|
  }

  lemma {:induction false} FoundRow(lines: seq<Line>, first: nat, last: nat, k: nat)
    requires Canonical(lines) && first <= last < |lines| && k <= last - first
    ensures |SourceRows(lines, first, last)| == last - first + 1
    ensures var C, e, t := MadeLines(lines, first, last), FoundEnd(lines, first, last),
                           SourceRows(lines, first, last)[k];
            RowCode(C, first, e, k) == Escaping(t) && Unescape(Escaping(t)) == t && Values(C, first, e)[k] == t
  {
    MadeRow(lines, first, last, k);
    UnescapeInverts(SourceRows(lines, first, last)[k]);
    hide MadeLines, SourceRows, IsTable, Unescape, Escaping, IsRow, Encoded, RowText, Canonical;
  }

  /** Rows that end before a position are passed. */
  lemma {:induction false} BackPasses(C: seq<Line>, h: nat, e: nat, eol: string, k: nat, row: nat, p: nat)
    requires IsTable(C, h, e) && k <= row < e - h - 1
    requires forall j | k <= j < row :: p > Located(C, RowIndex(h, j)).end
    ensures Back(C, h, e, eol, k, Offset(Values(C, h, e), eol, k), p)
            == Back(C, h, e, eol, row, Offset(Values(C, h, e), eol, row), p)
    decreases row - k
  {
    hide Back, Values, RowCode, Unescape, Start, Offset, IsRow, Join, Whole;
    if k < row {
      ValueIsDecoded(C, h, e, k);
      NextOffset(Values(C, h, e), eol, k);
      assert p > Located(C, RowIndex(h, k)).end;
      assert Offset(Values(C, h, e), eol, k) + |Unescape(RowCode(C, h, e, k))| + |eol|
             == Offset(Values(C, h, e), eol, k + 1);
      BackStep(C, h, e, eol, k, Offset(Values(C, h, e), eol, k), p);
      BackPasses(C, h, e, eol, k + 1, row, p);
    }
  }

  lemma {:induction false} ValueIsDecoded(C: seq<Line>, h: nat, e: nat, k: nat)
    requires IsTable(C, h, e) && k < e - h - 1
    ensures Values(C, h, e)[k] == Unescape(RowCode(C, h, e, k))
  {
  }

  lemma {:induction false} NextOffset(rows: seq<string>, eol: string, k: nat)
    requires k < |rows|
    ensures Offset(rows, eol, k + 1) == Offset(rows, eol, k) + |rows[k]| + |eol|
  {
  }

  /** In its row a position is carried by the code before it. */
  lemma {:induction false} BackHere(C: seq<Line>, h: nat, e: nat, eol: string, row: nat, offset: nat, p: nat, n: nat)
    requires IsTable(C, h, e) && row < e - h - 1
    requires n <= |RowCode(C, h, e, row)| && p == Start(C, RowIndex(h, row)) + |LEAD| + n
    requires p + |Suffix(row)| <= Start(C, RowIndex(h, row)) + |C[RowIndex(h, row)].text|
    ensures Back(C, h, e, eol, row, offset, p) == Start(C, h) + offset + |Unescape(RowCode(C, h, e, row)[..n])|
  {
    hide Back, RowCode, IsTable, Unescape, Start;
    BackStep(C, h, e, eol, row, offset, p);
  }

  lemma {:induction false} OffsetOfSame(a: seq<string>, b: seq<string>, eol: string, k: nat)
    requires k <= |a| && k <= |b| && forall i | 0 <= i < k :: a[i] == b[i]
    ensures Offset(a, eol, k) == Offset(b, eol, k)
  {
    if k > 0 {
      OffsetOfSame(a, b, eol, k - 1);
    }
  }

  lemma {:induction false} BehindLine(C: seq<Line>, i: nat, j: nat, p: nat)
    requires i < j < |C| && p > Start(C, j)
    ensures p > Located(C, i).end
  {
    StartNext(C, i);
    StartMonotone(C, i + 1, j);
  }

  /** A position lies behind the cells of all earlier rows. */
  lemma {:induction false} NotInEarlierRow(lines: seq<Line>, first: nat, last: nat, rc: (nat, nat), k: nat)
    requires Canonical(lines) && first <= last < |lines| && InRows(lines, first, last, rc) && k < rc.0
    ensures |MadeLines(lines, first, last)| == |lines| + 1 && RowIndex(first, k) < |lines| + 1
    ensures At(lines, first, last, rc) > Located(MadeLines(lines, first, last), RowIndex(first, k)).end
  {
    MadeLength(lines, first, last);
    assert RowIndex(first, k) < RowIndex(first, rc.0) < |lines| + 1;
    AtInLine(lines, first, last, rc);
    hide *;
    BehindLine(MadeLines(lines, first, last), RowIndex(first, k), RowIndex(first, rc.0), At(lines, first, last, rc));
  }

  lemma {:induction false} SameStart(lines: seq<Line>, first: nat, last: nat)
    requires Canonical(lines) && first <= last < |lines|
    ensures first <= |MadeLines(lines, first, last)|
            && Start(MadeLines(lines, first, last), first) == Start(lines, first)
  {
    MadeShape(lines, first, last);
  }

  /** A position in a row maps back to its column in that row. */
  lemma {:induction false} MapsBack(lines: seq<Line>, first: nat, last: nat, rc: (nat, nat), eol: string)
    requires Canonical(lines) && first <= last < |lines| && InRows(lines, first, last, rc)
    ensures rc.0 < |SourceRows(lines, first, last)|
    ensures Back(MadeLines(lines, first, last), first, FoundEnd(lines, first, last), eol, 0, 0,
                 At(lines, first, last, rc))
            == Start(lines, first) + Offset(SourceRows(lines, first, last), eol, rc.0) + rc.1
  {
    var C, e, rows, p := MadeLines(lines, first, last), FoundEnd(lines, first, last), SourceRows(lines, first, last),
                         At(lines, first, last, rc);
    MadeLength(lines, first, last);
    var t := rows[rc.0];
    AtInLine(lines, first, last, rc);
    SameStart(lines, first, last);
    PrefixMapsBack(t, rc.1);
    assert p == Start(C, RowIndex(first, rc.0)) + |LEAD| + |Escaping(t[..rc.1])|;
    hide MadeLines, SourceRows, FoundEnd, At, Start, Escaping, Unescape, Canonical, IndexAt, Back, RowCode, IsTable,
         Values;
    forall k | 0 <= k < |rows|
      ensures Values(C, first, e)[k] == rows[k]
    {
      FoundRow(lines, first, last, k);
    }
    forall k | 0 <= k < rc.0
      ensures p > Located(C, RowIndex(first, k)).end
    {
      NotInEarlierRow(lines, first, last, rc, k);
    }
    FoundRow(lines, first, last, rc.0);
    BackPasses(C, first, e, eol, 0, rc.0, p);
    OffsetOfSame(Values(C, first, e), rows, eol, rc.0);
    BackHere(C, first, e, eol, rc.0, Offset(rows, eol, rc.0), p, |Escaping(t[..rc.1])|);
  }

  // ---- The text given back ----

  function Filled(lines: seq<Line>, first: nat, last: nat): string
    requires first <= last < |lines|
  {
    if Inner(lines, first, last) == "" then PLACEHOLDER else Inner(lines, first, last)
  }

  /** The text, with the placeholder in place of an empty line. */
  function FilledText(lines: seq<Line>, first: nat, last: nat): string
    requires first <= last < |lines|
  {
    Before(lines, first) + Filled(lines, first, last) + After(lines, last)
  }

  function TextsOf(ls: seq<Line>): (t: seq<string>)
    ensures |t| == |ls|
  {
    seq(|ls|, i requires 0 <= i < |ls| => ls[i].text)
  }

  function Inside(ls: seq<Line>): string
    requires ls != []
  {
    Join(ls[..|ls| - 1]) + ls[|ls| - 1].text
  }

  lemma {:induction false} InsideFirst(ls: seq<Line>)
    requires |ls| > 1
    ensures Inside(ls) == ls[0].text + ls[0].eol + Inside(ls[1..]) && TextsOf(ls)[1..] == TextsOf(ls[1..])
  {
    var init := ls[..|ls| - 1];
    assert init[0] == ls[0] && init[1..] == ls[1..][..|ls| - 2];
    assert Whole(ls[0]) + Join(init[1..]) + ls[|ls| - 1].text
           == ls[0].text + ls[0].eol + (Join(init[1..]) + ls[|ls| - 1].text);
  }

  /** Like breaks: the texts spread again are the lines. */
  lemma {:induction false} SpreadIsInside(ls: seq<Line>, eol: string)
    requires ls != [] && forall i | 0 <= i < |ls| - 1 :: ls[i].eol == eol
    ensures Spread(TextsOf(ls), eol) == Inside(ls)
  {
    if |ls| > 1 {
      InsideFirst(ls);
      SpreadIsInside(ls[1..], eol);
    } else {
      assert ls[..0] == [] && "" + ls[0].text == ls[0].text;
    }
  }

  /** An unlike break: whatever follows, the spread values differ from the lines. */
  lemma {:induction false} SpreadDiffers(ls: seq<Line>, values: seq<string>, eol: string, x: string, y: string,
        bad: nat)
    requires bad + 1 < |ls| <= |values| && TextsOf(ls) == values[..|ls|] && ls[bad].eol != eol
    requires eol in {"\n", "\r\n"} && forall i | 0 <= i < |ls| - 1 :: ls[i].eol in {"\n", "\r\n"}
    ensures Spread(values, eol) + x != Inside(ls) + y
    decreases |ls|
  {
    var t := ls[0].text;
    assert values[0] == values[..|ls|][0] == t;
    assert Spread(values, eol) == values[0] + eol + Spread(values[1..], eol);
    hide Spread, Inside, TextsOf;
    InsideFirst(ls);
    var s, u := Spread(values[1..], eol), Inside(ls[1..]);
    GroupFour(t, eol, s, x);
    GroupFour(t, ls[0].eol, u, y);
    if ls[0].eol == eol {
      assert TextsOf(ls[1..]) == values[1..][..|ls| - 1] by {
        assert values[1..][..|ls| - 1] == values[..|ls|][1..];
      }
      SpreadDiffers(ls[1..], values[1..], eol, x, y, bad - 1);
      SameBehind(t, eol + (s + x), eol + (u + y));
      SameBehind(eol, s + x, u + y);
    } else {
      BreaksDiffer(eol, ls[0].eol, s + x, u + y);
      SameBehind(t, eol + (s + x), ls[0].eol + (u + y));
    }
  }

  lemma {:induction false} GroupFour(a: string, b: string, c: string, d: string)
    ensures a + b + c + d == a + (b + (c + d))
  {
  }

  lemma {:induction false} BreaksDiffer(p: string, q: string, x: string, y: string)
    requires p != q && p in {"\n", "\r\n"} && q in {"\n", "\r\n"}
    ensures p + x != q + y
  {
    assert (p + x)[0] == p[0] && (q + y)[0] == q[0];
  }

  lemma {:induction false} SameBehind(a: string, x: string, y: string)
    ensures a + x == a + y <==> x == y
  {
    if a + x == a + y {
      assert x == (a + x)[|a|..] && y == (a + y)[|a|..];
    }
  }

  // ---- Body rows behind the made ones ----

  function GivenBack(C: seq<Line>, h: nat, e: nat, eol: string): string
    requires IsTable(C, h, e)
  {
    Spread(Values(C, h, e), eol) + After(C, e - 1)
  }

  /** A body row more makes the text given back shorter. */
  lemma {:induction false} OneMoreRow(C: seq<Line>, h: nat, e: nat, eol: string)
    requires IsTable(C, h, e + 1) && IsTable(C, h, e) && |eol| <= 2 && C[e - 1].eol != ""
    ensures |GivenBack(C, h, e + 1, eol)| < |GivenBack(C, h, e, eol)|
  {
    var v := Unescape(Encoded(C[e].text, CELL));
    ValuesMore(C, h, e);
    UnescapeIsNoLonger(Encoded(C[e].text, CELL));
    assert IsRow(C[e].text, CELL) && |C[e].text| >= 11;
    assert |v| + 11 <= |C[e].text| by {
      RowIsLong(C[e].text);
    }
    SpreadMore(Values(C, h, e), v, eol);
    assert C[e..][0] == C[e] && C[e..][1..] == C[e + 1..];
    assert |Join(C[e..])| == |C[e].text| + |C[e].eol| + |Join(C[e + 1..])|;
    hide Values, Unescape, Encoded, IsRow, Join, Spread;
  }

  lemma {:induction false} RowIsLong(text: string)
    requires IsRow(text, CELL)
    ensures |Encoded(text, CELL)| + 11 <= |text|
  {
  }

  lemma {:induction false} ValuesMore(C: seq<Line>, h: nat, e: nat)
    requires IsTable(C, h, e) && IsTable(C, h, e + 1)
    ensures Values(C, h, e + 1) == Values(C, h, e) + [Unescape(Encoded(C[e].text, CELL))]
  {
    hide Unescape, Encoded, IsRow;
    var k := e - h - 1;
    assert RowIndex(h, k) == e && Suffix(k) == CELL;
    assert Values(C, h, e + 1)[k] == Unescape(RowCode(C, h, e + 1, k));
    forall r | 0 <= r < k
      ensures Values(C, h, e + 1)[r] == Values(C, h, e)[r]
    {
    }
  }

  lemma {:induction false} MoreRowsShorten(C: seq<Line>, h: nat, d: nat, e: nat, eol: string)
    requires Canonical(C) && IsTable(C, h, e) && h + 2 <= d < e && |eol| <= 2
    ensures IsTable(C, h, d) && |GivenBack(C, h, e, eol)| < |GivenBack(C, h, d, eol)|
    decreases e
  {
    assert IsTable(C, h, e - 1);
    assert Terminated(C[e - 2]);
    hide GivenBack, IsRow;
    OneMoreRow(C, h, e - 1, eol);
    if d < e - 1 {
      MoreRowsShorten(C, h, d, e - 1, eol);
    }
  }

  // ---- The toggle ----

  /** The break the second call joins values with is the one the first call used. */
  lemma {:induction false} FoundEnding(lines: seq<Line>, first: nat, last: nat)
    requires Canonical(lines) && first <= last < |lines|
    ensures var C, e := MadeLines(lines, first, last), FoundEnd(lines, first, last);
            LocalEnding(C, first, e - 1) == LocalEnding(lines, first, last)
  {
    var C, e := MadeLines(lines, first, last), FoundEnd(lines, first, last);
    MadeShape(lines, first, last);
    MadeIsCanonical(lines, first, last);
    LocalEndingIsBreak(lines, first, last);
    hide MadeLines, FoundEnd, LocalEnding, Canonical, IsTable;
    LocalEndingIsBreak(C, first, e - 1);
  }

  /** The second call, for a selection given by rows and columns. */
  lemma {:induction false} SecondCall(lines: seq<Line>, first: nat, last: nat, a: (nat, nat), b: (nat, nat))
    requires Canonical(lines) && first <= last < |lines| && InRows(lines, first, last, a)
             && InRows(lines, first, last, b)
    requires NotAfter(a, b)
    ensures var C, rows, eol := MadeLines(lines, first, last), SourceRows(lines, first, last),
                                LocalEnding(lines, first, last);
            && Canonical(C) && At(lines, first, last, a) <= At(lines, first, last, b) <= |Join(C)|
            && Tabled(C, At(lines, first, last, a), At(lines, first, last, b))
               == Edit(Before(lines, first) + Spread(Values(C, first, FoundEnd(lines, first, last)), eol)
                       + After(C, FoundEnd(lines, first, last) - 1),
                       Start(lines, first) + Offset(rows, eol, a.0) + a.1,
                       Start(lines, first) + Offset(rows, eol, b.0) + b.1)
  {
    hide Start, Back, Values, Spread, Recognized, Touched, Join, Tabled, IndexAt, Offset, SourceRows, LocalEnding,
         Canonical;
    var C, eol := MadeLines(lines, first, last), LocalEnding(lines, first, last);
    var s, t, e := At(lines, first, last, a), At(lines, first, last, b), FoundEnd(lines, first, last);
    MadeLength(lines, first, last);
    SecondTouches(lines, first, last, a, b);
    SecondRecognizes(lines, first, last, RowIndex(first, a.0), RowIndex(first, b.0));
    FoundEnding(lines, first, last);
    MapsBack(lines, first, last, a, eol);
    MapsBack(lines, first, last, b, eol);
    assert Before(C, first) == Before(lines, first) by {
      MadeShape(lines, first, last);
    }
    assert e == BodyEnd(C, first + 2);
    hide MadeLines, SourceRows, FoundEnd, At, Start, Canonical, Back, Values, Spread, IsTable, BodyEnd, Recognized,
         Touched, LocalEnding, Join, Before, After, Offset, InRows, Tabled;
    UnmadeAt(C, first, s, t, RowIndex(first, a.0), RowIndex(first, b.0));
  }

  lemma {:induction false} UnmadeAt(C: seq<Line>, h: nat, start: nat, end: nat, f: nat, l: nat)
    requires Canonical(C) && start <= end <= |Join(C)| && Touched(C, start, end) == (f, l)
    requires Recognized(C, f, f, l) == Some(h)
    ensures h + 2 <= |C| && IsTable(C, h, BodyEnd(C, h + 2))
    ensures Tabled(C, start, end) == Unmade(C, h, BodyEnd(C, h + 2), start, end)
  {
    hide Touched, Unmade, BodyEnd, Join, Canonical, Recognized;
    RecognizedIsCandidate(C, f, f, l);
    CandidateIsTable(C, h, f, l);
  }

  /** What is given back is the filled text exactly when the breaks are alike and no body row follows. */
  lemma {:induction false} GivenBackExactly(lines: seq<Line>, first: nat, last: nat)
    requires Canonical(lines) && first <= last < |lines|
    ensures var C, e, eol := MadeLines(lines, first, last), FoundEnd(lines, first, last),
                             LocalEnding(lines, first, last);
            Before(lines, first) + Spread(Values(C, first, e), eol) + After(C, e - 1) == FilledText(lines, first, last)
            <==> Alike(lines, first, last) && !Continues(lines, last)
  {
    hide MadeLines, Values, Spread, Before, After, LocalEnding, Alike, FilledText, Canonical, IsTable, IsRow, Continues;
    BodyOfMade(lines, first, last);
    if !Alike(lines, first, last) {
      UnlikeDiffers(lines, first, last);
    } else if Continues(lines, last) {
      ContinuingShortens(lines, first, last);
    } else {
      LikeGivesBack(lines, first, last);
    }
  }

  lemma {:induction false} ContinuingShortens(lines: seq<Line>, first: nat, last: nat)
    requires Canonical(lines) && first <= last < |lines| && Alike(lines, first, last) && Continues(lines, last)
    ensures var C, e, eol := MadeLines(lines, first, last), FoundEnd(lines, first, last),
                             LocalEnding(lines, first, last);
            |Before(lines, first) + Spread(Values(C, first, e), eol) + After(C, e - 1)|
              < |FilledText(lines, first, last)|
  {
    hide *;
    var C, e, eol := MadeLines(lines, first, last), FoundEnd(lines, first, last), LocalEnding(lines, first, last);
    FoundMore(lines, first, last);
    LikeGivesBack(lines, first, last);
    MadeIsCanonical(lines, first, last);
    LocalEndingIsBreak(lines, first, last);
    GivenBackIsShorter(C, first, last + 2, e, eol, Before(lines, first));
  }

  lemma {:induction false} FoundMore(lines: seq<Line>, first: nat, last: nat)
    requires Canonical(lines) && first <= last < |lines| && Continues(lines, last)
    ensures FoundEnd(lines, first, last) > last + 2
  {
    hide MadeLines, Canonical, IsTable, Continues;
    BodyOfMade(lines, first, last);
  }

  lemma {:induction false} GivenBackIsShorter(C: seq<Line>, h: nat, d: nat, e: nat, eol: string, before: string)
    requires Canonical(C) && IsTable(C, h, e) && h + 2 <= d < e && |eol| <= 2
    ensures IsTable(C, h, d)
    ensures |before + Spread(Values(C, h, e), eol) + After(C, e - 1)| < |before| + |GivenBack(C, h, d, eol)|
  {
    hide Canonical, Spread, Values, After;
    MoreRowsShorten(C, h, d, e, eol);
  }

  /** Like breaks: the made rows alone give the filled text back. */
  lemma {:induction false} LikeGivesBack(lines: seq<Line>, first: nat, last: nat)
    requires Canonical(lines) && first <= last < |lines| && Alike(lines, first, last)
    ensures var C, eol := MadeLines(lines, first, last), LocalEnding(lines, first, last);
            && IsTable(C, first, last + 2)
            && Before(lines, first) + Spread(Values(C, first, last + 2), eol) + After(C, last + 1)
               == FilledText(lines, first, last)
            && |Before(lines, first)| + |GivenBack(C, first, last + 2, eol)| == |FilledText(lines, first, last)|
  {
    var C, eol, rows := MadeLines(lines, first, last), LocalEnding(lines, first, last), SourceRows(lines, first, last);
    assert IsTable(C, first, last + 2) by {
      assert IsTable(C, first, FoundEnd(lines, first, last));
    }
    ValuesAreRows(lines, first, last);
    MadeShape(lines, first, last);
    RowsSpread(lines, first, last);
    hide MadeLines, Values, Spread, LocalEnding, SourceRows, Join, IsTable, Inner, Canonical;
  }

  lemma {:induction false} ValuesAreRows(lines: seq<Line>, first: nat, last: nat)
    requires Canonical(lines) && first <= last < |lines|
    ensures IsTable(MadeLines(lines, first, last), first, last + 2)
    ensures Values(MadeLines(lines, first, last), first, last + 2) == SourceRows(lines, first, last)
  {
    var C, e := MadeLines(lines, first, last), FoundEnd(lines, first, last);
    assert IsTable(C, first, e);
    MadeLength(lines, first, last);
    forall k | 0 <= k < last - first + 1
      ensures Values(C, first, last + 2)[k] == SourceRows(lines, first, last)[k]
    {
      FoundRow(lines, first, last, k);
      ValueIsDecoded(C, first, e, k);
      ValueIsDecoded(C, first, last + 2, k);
    }
  }

  lemma {:induction false} RowsSpread(lines: seq<Line>, first: nat, last: nat)
    requires Canonical(lines) && first <= last < |lines| && Alike(lines, first, last)
    ensures Spread(SourceRows(lines, first, last), LocalEnding(lines, first, last)) == Filled(lines, first, last)
  {
    var ls := lines[first..last + 1];
    if Inner(lines, first, last) != "" {
      RowsAreTexts(lines, first, last);
      InsideIsInner(lines, first, last);
      hide LocalEnding, Join, Inner, SourceRows, Inside, TextsOf, Spread, Canonical;
      SpreadIsInside(ls, LocalEnding(lines, first, last));
    }
  }

  lemma {:induction false} RowsAreTexts(lines: seq<Line>, first: nat, last: nat)
    requires Canonical(lines) && first <= last < |lines| && Inner(lines, first, last) != ""
    ensures SourceRows(lines, first, last) == TextsOf(lines[first..last + 1])
  {
    hide Inner, Canonical;
  }

  lemma {:induction false} InsideIsInner(lines: seq<Line>, first: nat, last: nat)
    requires first <= last < |lines|
    ensures Inside(lines[first..last + 1]) == Inner(lines, first, last)
  {
    var ls := lines[first..last + 1];
    assert ls[..|ls| - 1] == lines[first..last];
  }

  lemma {:induction false} UnlikeDiffers(lines: seq<Line>, first: nat, last: nat)
    requires Canonical(lines) && first <= last < |lines| && !Alike(lines, first, last)
    ensures var C, e, eol := MadeLines(lines, first, last), FoundEnd(lines, first, last),
                             LocalEnding(lines, first, last);
            Before(lines, first) + Spread(Values(C, first, e), eol) + After(C, e - 1) != FilledText(lines, first, last)
  {
    hide MadeLines, Values, LocalEnding, Inner, Spread, Canonical, IsTable, Before, After, Join;
    MadeLength(lines, first, last);
    var C, e, eol := MadeLines(lines, first, last), FoundEnd(lines, first, last), LocalEnding(lines, first, last);
    var values := Values(C, first, e);
    UnlikeSpread(lines, first, last, After(C, e - 1), After(lines, last));
    EmptyIsOneLine(lines, first, last);
    assert Filled(lines, first, last) == Inner(lines, first, last);
    Associate(Before(lines, first), Spread(values, eol), After(C, e - 1));
    Associate(Before(lines, first), Inner(lines, first, last), After(lines, last));
    SameBehind(Before(lines, first), Spread(values, eol) + After(C, e - 1),
               Inner(lines, first, last) + After(lines, last));
  }

  lemma {:induction false} UnlikeSpread(lines: seq<Line>, first: nat, last: nat, x: string, y: string)
    requires Canonical(lines) && first <= last < |lines| && !Alike(lines, first, last)
    ensures Spread(Values(MadeLines(lines, first, last), first, FoundEnd(lines, first, last)),
                   LocalEnding(lines, first, last)) + x
            != Inner(lines, first, last) + y
  {
    hide MadeLines, FoundEnd, Values, LocalEnding, Inner, TextsOf, Inside, Spread, Canonical, SourceRows, Join, IsTable;
    var eol, ls := LocalEnding(lines, first, last), lines[first..last + 1];
    var i :| first <= i < last && lines[i].eol != eol;
    assert ls[i - first] == lines[i];
    LocalEndingIsBreak(lines, first, last);
    BreaksInside(lines, first, last);
    InsideIsInner(lines, first, last);
    TextsGivenBack(lines, first, last);
    SpreadDiffers(ls, Values(MadeLines(lines, first, last), first, FoundEnd(lines, first, last)), eol, x, y, i - first);
  }

  lemma {:induction false} BreaksInside(lines: seq<Line>, first: nat, last: nat)
    requires Canonical(lines) && first <= last < |lines|
    ensures var ls := lines[first..last + 1]; forall k | 0 <= k < |ls| - 1 :: ls[k].eol in {"\n", "\r\n"}
  {
    var ls := lines[first..last + 1];
    forall k | 0 <= k < |ls| - 1
      ensures ls[k].eol in {"\n", "\r\n"}
    {
      assert Terminated(lines[first + k]);
    }
  }

  lemma {:induction false} TextsGivenBack(lines: seq<Line>, first: nat, last: nat)
    requires Canonical(lines) && first < last < |lines|
    ensures var values := Values(MadeLines(lines, first, last), first, FoundEnd(lines, first, last));
            last - first + 1 <= |values| && TextsOf(lines[first..last + 1]) == values[..last - first + 1]
  {
    hide MadeLines, FoundEnd, Values, Canonical, Inner, IsTable;
    var texts, values := TextsOf(lines[first..last + 1]),
                         Values(MadeLines(lines, first, last), first, FoundEnd(lines, first, last));
    EmptyIsOneLine(lines, first, last);
    forall k | 0 <= k < last - first + 1
      ensures texts[k] == values[k]
    {
      RowIsText(lines, first, last, k);
      FoundRow(lines, first, last, k);
    }
    hide TextsOf;
    assert texts == values[..last - first + 1];
  }

  lemma {:induction false} RowIsText(lines: seq<Line>, first: nat, last: nat, k: nat)
    requires Canonical(lines) && first <= last < |lines| && k <= last - first && Inner(lines, first, last) != ""
    ensures |SourceRows(lines, first, last)| == last - first + 1
    ensures SourceRows(lines, first, last)[k] == lines[first + k].text == TextsOf(lines[first..last + 1])[k]
  {
    hide Inner, Canonical;
  }

  lemma {:induction false} Associate(a: string, b: string, c: string)
    ensures a + b + c == a + (b + c)
  {
  }

  // ---- Where the selection settles ----

  /**
   A position settles in the text of the touched line it is in, or at the next one's start,
   or behind the last text.
   */
  function Settled(lines: seq<Line>, first: nat, last: nat, p: nat): nat
    requires first <= last < |lines|
  {
    var (row, column) := RowFrom(lines, first, last, 0, p);
    Start(lines, first + row) + column
  }

  lemma {:induction false} RowFromInside(lines: seq<Line>, first: nat, last: nat, i: nat, k: nat, p: nat)
    requires first <= last < |lines| && i <= k <= last - first
    requires Start(lines, first + k) <= p <= Start(lines, first + k) + |lines[first + k].text|
    requires k > 0 ==> p > Located(lines, first + k - 1).end
    ensures RowFrom(lines, first, last, i, p) == (k, p - Start(lines, first + k))
    decreases k - i
  {
    hide Start;
    RowFromStep(lines, first, last, i, p);
    if i < k {
      assert p > Located(lines, first + i).end by {
        if i < k - 1 {
          BehindLine(lines, first + i, first + k - 1, p);
        }
      }
      RowFromInside(lines, first, last, i + 1, k, p);
    }
  }

  /** A position in the text of a touched line stays where it is. */
  lemma {:induction false} SettlesInside(lines: seq<Line>, first: nat, last: nat, i: nat, p: nat)
    requires Canonical(lines) && first <= i <= last < |lines|
    requires Start(lines, i) <= p <= Start(lines, i) + |lines[i].text|
    ensures Settled(lines, first, last, p) == p
  {
    hide Start, RowFrom;
    var k := i - first;
    if k > 0 {
      assert Terminated(lines[i - 1]);
      StartNext(lines, i - 1);
    }
    RowFromInside(lines, first, last, 0, k, p);
  }

  lemma {:induction false} RowFromMonotone(lines: seq<Line>, first: nat, last: nat, i: nat, p: nat, q: nat)
    requires first <= last < |lines| && i <= last - first + 1 && p <= q
    ensures NotAfter(RowFrom(lines, first, last, i, p), RowFrom(lines, first, last, i, q))
    ensures RowFrom(lines, first, last, i, p).0 >= i || i == last - first + 1
    decreases last + 1 - first - i
  {
    if i <= last - first {
      hide Start;
      RowFromMonotone(lines, first, last, i + 1, p, q);
    }
  }

  /** Like breaks: rows stand in the filled text where the lines stand. */
  lemma {:induction false} OffsetIsStart(lines: seq<Line>, first: nat, last: nat, k: nat)
    requires Canonical(lines) && first <= last < |lines| && Alike(lines, first, last) && k <= last - first
    requires Inner(lines, first, last) != ""
    ensures Start(lines, first) + Offset(SourceRows(lines, first, last), LocalEnding(lines, first, last), k)
            == Start(lines, first + k)
  {
    hide LocalEnding, Inner, Start, SourceRows, Canonical;
    RowIsText(lines, first, last, k);
    if k > 0 {
      OffsetIsStart(lines, first, last, k - 1);
      RowIsText(lines, first, last, k - 1);
      StartNext(lines, first + k - 1);
    } else {
      assert Offset(SourceRows(lines, first, last), LocalEnding(lines, first, last), 0) == 0;
    }
  }

  // ---- The theorem ----

  /** The first call's result is a source with a selection in it, split into the made lines. */
  lemma {:induction false} FirstCall(lines: seq<Line>, start: nat, end: nat, first: nat, last: nat)
    requires Canonical(lines) && start <= end <= |Join(lines)| && Touched(lines, start, end) == (first, last)
             && first <= last
    requires Recognized(lines, first, first, last).None?
    ensures Tabled(lines, start, end) == Made(lines, first, last, start, end)
    ensures Canonical(MadeLines(lines, first, last))
            && Split(Join(MadeLines(lines, first, last))) == MadeLines(lines, first, last)
  {
    hide Touched, Made, Recognized, Join, Canonical, MadeLines, Split;
    MadeIsCanonical(lines, first, last);
    SplitOfJoin(MadeLines(lines, first, last));
  }

  /** The rows and columns of the returned selection. */
  function Selected(lines: seq<Line>, first: nat, last: nat, start: nat, end: nat): ((nat, nat), (nat, nat))
    requires first <= last < |lines|
  {
    if Inner(lines, first, last) == "" then ((0, 0), (0, |PLACEHOLDER|))
    else (RowFrom(lines, first, last, 0, start), RowFrom(lines, first, last, 0, end))
  }

  lemma {:induction false} SelectedInRows(lines: seq<Line>, first: nat, last: nat, start: nat, end: nat)
    requires Canonical(lines) && first <= last < |lines| && start <= end
    ensures var (a, b) := Selected(lines, first, last, start, end);
            && InRows(lines, first, last, a) && InRows(lines, first, last, b) && NotAfter(a, b)
            && Made(lines, first, last, start, end)
               == Edit(Join(MadeLines(lines, first, last)), At(lines, first, last, a), At(lines, first, last, b))
  {
    hide MadeLines, Start, Canonical, RowFrom, Inner, Join, PlacedIn, At, InRows, NotAfter, SourceRows;
    MadeLength(lines, first, last);
    if Inner(lines, first, last) == "" {
      PlaceholderPlaced(lines, first, last);
    } else {
      RowFromMonotone(lines, first, last, 0, start, end);
      PlacedIsAt(lines, first, last, start);
      PlacedIsAt(lines, first, last, end);
    }
  }

  lemma {:induction false} PlaceholderPlaced(lines: seq<Line>, first: nat, last: nat)
    requires Canonical(lines) && first <= last < |lines| && Inner(lines, first, last) == ""
    ensures |MadeLines(lines, first, last)| == |lines| + 1
    ensures InRows(lines, first, last, (0, 0)) && InRows(lines, first, last, (0, |PLACEHOLDER|))
    ensures NotAfter((0, 0), (0, |PLACEHOLDER|))
    ensures At(lines, first, last, (0, 0)) == Start(MadeLines(lines, first, last), first) + |LEAD|
    ensures At(lines, first, last, (0, |PLACEHOLDER|))
            == Start(MadeLines(lines, first, last), first) + |LEAD| + |PLACEHOLDER|
  {
    MadeLength(lines, first, last);
    PlaceholderPlain();
    hide MadeLines, Start, Canonical, Inner, Escaping;
  }

  lemma {:induction false} PlacedIsAt(lines: seq<Line>, first: nat, last: nat, p: nat)
    requires Canonical(lines) && first <= last < |lines| && Inner(lines, first, last) != ""
    ensures |MadeLines(lines, first, last)| == |lines| + 1
    ensures InRows(lines, first, last, RowFrom(lines, first, last, 0, p))
    ensures PlacedIn(lines, first, last, p) == At(lines, first, last, RowFrom(lines, first, last, 0, p))
  {
    hide MadeLines, Start, Canonical, Inner, Escaping, SourceRows, RowFrom, TextsOf, Join;
    MadeLength(lines, first, last);
    var (row, column) := RowFrom(lines, first, last, 0, p);
    RowIsText(lines, first, last, row);
    var text := lines[first + row].text;
    assert SourceRows(lines, first, last)[row] == text;
    hide Cell;
  }

  lemma {:induction false} PlaceholderPlain()
    ensures |Escaping(PLACEHOLDER[..0])| == 0 && |Escaping(PLACEHOLDER[..|PLACEHOLDER|])| == |PLACEHOLDER|
  {
    assert PLACEHOLDER[..|PLACEHOLDER|] == PLACEHOLDER;
    PlainStays(PLACEHOLDER);
  }

  lemma {:induction false} PlainStays(s: string)
    requires forall i | 0 <= i < |s| :: !Special(s[i])
    ensures Escaping(s) == s
  {
    if s != "" {
      PlainStays(s[1..]);
    }
  }

  /** The selection the second call should give back. */
  function Expected(lines: seq<Line>, first: nat, last: nat, start: nat, end: nat): (nat, nat)
    requires first <= last < |lines|
  {
    if Inner(lines, first, last) == "" then (Start(lines, first), Start(lines, first) + |PLACEHOLDER|)
    else (Settled(lines, first, last, start), Settled(lines, first, last, end))
  }

  lemma {:induction false} SelectionGivenBack(lines: seq<Line>, first: nat, last: nat, start: nat, end: nat)
    requires Canonical(lines) && first <= last < |lines| && start <= end && Alike(lines, first, last)
    ensures var (a, b) := Selected(lines, first, last, start, end);
            var rows, eol := SourceRows(lines, first, last), LocalEnding(lines, first, last);
            && a.0 <= |rows| && b.0 <= |rows|
            && Expected(lines, first, last, start, end)
               == (Start(lines, first) + Offset(rows, eol, a.0) + a.1,
                   Start(lines, first) + Offset(rows, eol, b.0) + b.1)
  {
    hide Start, RowFrom, Inner, LocalEnding, SourceRows, Canonical, Alike, Settled;
    MadeLength(lines, first, last);
    assert Offset(SourceRows(lines, first, last), LocalEnding(lines, first, last), 0) == 0;
    hide Offset;
    if Inner(lines, first, last) != "" {
      SettledIsOffset(lines, first, last, start);
      SettledIsOffset(lines, first, last, end);
    }
  }

  lemma {:induction false} SettledIsOffset(lines: seq<Line>, first: nat, last: nat, p: nat)
    requires Canonical(lines) && first <= last < |lines| && Alike(lines, first, last) && Inner(lines, first, last) != ""
    ensures var rc := RowFrom(lines, first, last, 0, p); var rows := SourceRows(lines, first, last);
            && rc.0 <= |rows|
            && Settled(lines, first, last, p)
               == Start(lines, first) + Offset(rows, LocalEnding(lines, first, last), rc.0) + rc.1
  {
    MadeLength(lines, first, last);
    var rc := RowFrom(lines, first, last, 0, p);
    hide Start, RowFrom, Inner, LocalEnding, SourceRows, Canonical, Alike, Offset;
    OffsetIsStart(lines, first, last, rc.0);
  }

  /** What the first call returns is a selection in a source that splits into the made lines. */
  lemma {:induction false} Returned(lines: seq<Line>, start: nat, end: nat, first: nat, last: nat, e: Edit)
    requires Canonical(lines) && start <= end <= |Join(lines)| && e == Tabled(lines, start, end)
    requires Touched(lines, start, end) == (first, last) && first <= last && Recognized(lines, first, first, last).None?
    ensures InRange(e) && Split(e.value) == MadeLines(lines, first, last)
    ensures Canonical(Split(e.value)) && Join(Split(e.value)) == e.value
  {
    hide MadeLines, Start, Canonical, RowFrom, Inner, Join, Touched, Recognized, Split, Made, Tabled, At, InRows,
         NotAfter, Selected;
    var (a, b) := Selected(lines, first, last, start, end);
    FirstCall(lines, start, end, first, last);
    SelectedInRows(lines, first, last, start, end);
    SecondCall(lines, first, last, a, b);
  }

  /**
   The toggle law, for every source (given by its lines) and selection. When the first
   call finds no table around the touched lines, the second call on what it returned
   gives back the text, the placeholder standing in for an empty line, with the selection
   settled in the touched texts, if and only if the touched lines' breaks are alike and
   no line shaped like a body row follows them.
   */
  lemma {:induction false} ToggleRestores(lines: seq<Line>, start: nat, end: nat, first: nat, last: nat, e: Edit)
    requires Canonical(lines) && start <= end <= |Join(lines)| && e == Tabled(lines, start, end)
    requires Touched(lines, start, end) == (first, last) && first <= last && Recognized(lines, first, first, last).None?
    ensures InRange(e) && Canonical(Split(e.value)) && Join(Split(e.value)) == e.value
    ensures Inner(lines, first, last) != "" ==> FilledText(lines, first, last) == Join(lines)
    ensures Tabled(Split(e.value), e.start, e.end)
            == (var (s, t) := Expected(lines, first, last, start, end); Edit(FilledText(lines, first, last), s, t))
            <==> Alike(lines, first, last) && !Continues(lines, last)
  {
    hide *;
    var (a, b) := Selected(lines, first, last, start, end);
    Returned(lines, start, end, first, last, e);
    FirstCall(lines, start, end, first, last);
    SelectedInRows(lines, first, last, start, end);
    SecondCall(lines, first, last, a, b);
    GivenBackExactly(lines, first, last);
    if Alike(lines, first, last) {
      SelectionGivenBack(lines, first, last, start, end);
    }
    if Inner(lines, first, last) != "" {
      FilledIsSource(lines, first, last);
    }
  }

  lemma {:induction false} FilledIsSource(lines: seq<Line>, first: nat, last: nat)
    requires first <= last < |lines| && Inner(lines, first, last) != ""
    ensures FilledText(lines, first, last) == Join(lines)
  {
    JoinAround(lines, first, last);
  }
}
