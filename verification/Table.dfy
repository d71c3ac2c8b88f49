/**
 Tables: the touched lines become the first column of a two-column table, a line a
 row, or a table that holds the touched lines becomes its first column's lines.
 */
module Table {
  import opened Options
  import opened Text
  import opened Lines
  import opened Cells

  const PLACEHOLDER := "Column 1"

  // ---- The table made of lines ----

  function Texts(lines: seq<Line>, first: nat, last: nat): (t: seq<string>)
    requires first <= last < |lines|
    ensures |t| == last - first + 1
  {
    seq(last - first + 1, i requires 0 <= i < last - first + 1 => lines[first + i].text)
  }

  function SourceRows(lines: seq<Line>, first: nat, last: nat): (rows: seq<string>)
    requires first <= last < |lines|
    ensures rows != []
  {
    if Inner(lines, first, last) == "" then [PLACEHOLDER] else Texts(lines, first, last)
  }

  function Suffix(row: nat): string {
    if row == 0 then COLUMN else CELL
  }

  /** Where the lines of rows stand: the separator follows the first. */
  function RowIndex(first: nat, row: nat): nat {
    if row == 0 then first else first + row + 1
  }

  function Body(rows: seq<string>, eol: string, lastEol: string): (b: seq<Line>)
    ensures |b| == |rows|
  {
    seq(|rows|, i requires 0 <= i < |rows| => Line(RowText(rows[i], CELL), if i + 1 == |rows| then lastEol else eol))
  }

  /** A header, a separator and a body row for each further text; the last line ends in `lastEol`. */
  function TableRows(rows: seq<string>, eol: string, lastEol: string): (t: seq<Line>)
    requires rows != []
    ensures |t| == |rows| + 1
  {
    [Line(RowText(rows[0], COLUMN), eol), Line(SEPARATOR, if |rows| == 1 then lastEol else eol)]
      + Body(rows[1..], eol, lastEol)
  }

  /** All lines once the table stands in the text. */
  function MadeLines(lines: seq<Line>, first: nat, last: nat): seq<Line>
    requires first <= last < |lines|
  {
    lines[..first] + TableRows(SourceRows(lines, first, last), LocalEnding(lines, first, last), lines[last].eol)
      + lines[last + 1..]
  }

  function Clamp(p: int, hi: nat): (c: nat)
    ensures c <= hi
  {
    if p < 0 then 0 else if p > hi then hi else p
  }

  /** The row a position falls into, from the i-th on, and its column in the row's text. */
  function RowFrom(lines: seq<Line>, first: nat, last: nat, i: nat, p: nat): (rc: (nat, nat))
    requires first <= last < |lines| && i <= last - first + 1
    ensures rc.0 <= last - first && rc.1 <= |lines[first + rc.0].text|
    decreases last + 1 - first - i
  {
    if i == last - first + 1 then (last - first, |lines[last].text|)
    else
      var line := Located(lines, first + i);
      if p <= line.end then (i, Clamp(p - line.start, |line.text|)) else RowFrom(lines, first, last, i + 1, p)
  }

  /** Where that row and column of a text are in the made lines. */
  function Cell(made: seq<Line>, first: nat, row: nat, prefix: string): nat
    requires RowIndex(first, row) <= |made|
  {
    Start(made, RowIndex(first, row)) + |LEAD| + |Escaping(prefix)|
  }

  function PlacedIn(lines: seq<Line>, first: nat, last: nat, p: nat): nat
    requires first <= last < |lines| && |MadeLines(lines, first, last)| == |lines| + 1
  {
    var (row, column) := RowFrom(lines, first, last, 0, p);
    Cell(MadeLines(lines, first, last), first, row, lines[first + row].text[..column])
  }

  /** Touched text is empty only on a single empty line. */
  lemma {:induction false} EmptyIsOneLine(lines: seq<Line>, first: nat, last: nat)
    requires Canonical(lines) && first <= last < |lines|
    ensures Inner(lines, first, last) == "" <==> first == last && lines[first].text == ""
  {
    if first < last {
      assert Terminated(lines[first]) && lines[first..last][0] == lines[first];
    }
  }

  lemma {:induction false} MadeLength(lines: seq<Line>, first: nat, last: nat)
    requires Canonical(lines) && first <= last < |lines|
    ensures |SourceRows(lines, first, last)| == last - first + 1
    ensures |MadeLines(lines, first, last)| == |lines| + 1
  {
    EmptyIsOneLine(lines, first, last);
  }

  /** The text with the table in it; an empty line becomes a header to type over. */
  function Made(lines: seq<Line>, first: nat, last: nat, start: nat, end: nat): Edit
    requires Canonical(lines) && first <= last < |lines|
  {
    MadeLength(lines, first, last);
    var made := MadeLines(lines, first, last);
    if Inner(lines, first, last) == "" then
      Edit(Join(made), Start(made, first) + |LEAD|, Start(made, first) + |LEAD| + |PLACEHOLDER|)
    else
      Edit(Join(made), PlacedIn(lines, first, last, start), PlacedIn(lines, first, last, end))
  }

  // ---- The table found in lines ----

  /** Past the last of consecutive body rows. */
  function BodyEnd(lines: seq<Line>, i: nat): (e: nat)
    requires i <= |lines|
    ensures i <= e <= |lines|
    decreases |lines| - i
  {
    if i < |lines| && IsRow(lines[i].text, CELL) then BodyEnd(lines, i + 1) else i
  }

  /**
   A header and a separator, with the touched lines between the header and the last body
   row, not from the separator.
   */
  predicate Candidate(lines: seq<Line>, h: nat, first: nat, last: nat) {
    && h + 1 < |lines| && IsRow(lines[h].text, COLUMN) && IsSeparator(lines[h + 1].text)
    && h <= first && last < BodyEnd(lines, h + 2) && first != h + 1
  }

  /** The nearest such header from `h` upwards. */
  function Recognized(lines: seq<Line>, h: nat, first: nat, last: nat): Option<nat> {
    if Candidate(lines, h, first, last) then Some(h)
    else if h == 0 then None
    else Recognized(lines, h - 1, first, last)
  }

  /** A table from header `h` to before line `e`. */
  predicate IsTable(lines: seq<Line>, h: nat, e: nat) {
    && h + 2 <= e <= |lines| && IsRow(lines[h].text, COLUMN)
    && forall i | h + 2 <= i < e :: IsRow(lines[i].text, CELL)
  }

  function RowCode(lines: seq<Line>, h: nat, e: nat, row: nat): string
    requires IsTable(lines, h, e) && row < e - h - 1
  {
    Encoded(lines[RowIndex(h, row)].text, Suffix(row))
  }

  function Values(lines: seq<Line>, h: nat, e: nat): (v: seq<string>)
    requires IsTable(lines, h, e)
    ensures |v| == e - h - 1
  {
    seq(e - h - 1, r requires 0 <= r < e - h - 1 => Unescape(RowCode(lines, h, e, r)))
  }

  function Spread(values: seq<string>, eol: string): string {
    if values == [] then "" else if |values| == 1 then values[0] else values[0] + eol + Spread(values[1..], eol)
  }

  /** A position carried to the spread values, from row `row` on, which starts at `offset`. */
  function Back(lines: seq<Line>, h: nat, e: nat, eol: string, row: nat, offset: nat, p: nat): nat
    requires IsTable(lines, h, e) && row <= e - h - 1
    decreases e - h - 1 - row
  {
    if row == e - h - 1 then Start(lines, h) + |Spread(Values(lines, h, e), eol)|
    else
      var line, code := Located(lines, RowIndex(h, row)), RowCode(lines, h, e, row);
      if p <= line.end - |Suffix(row)| then
        Start(lines, h) + offset + |Unescape(code[..Clamp(p - (line.start + |LEAD|), |code|)])|
      else Back(lines, h, e, eol, row + 1, offset + |Unescape(code)| + |eol|, p)
  }

  function Unmade(lines: seq<Line>, h: nat, e: nat, start: nat, end: nat): Edit
    requires IsTable(lines, h, e)
  {
    var eol := LocalEnding(lines, h, e - 1);
    Edit(Before(lines, h) + Spread(Values(lines, h, e), eol) + After(lines, e - 1),
         Back(lines, h, e, eol, 0, 0, start), Back(lines, h, e, eol, 0, 0, end))
  }

  lemma {:induction false} BodyEndRows(lines: seq<Line>, i: nat)
    requires i <= |lines|
    ensures var e := BodyEnd(lines, i);
            && (forall k | i <= k < e :: IsRow(lines[k].text, CELL))
            && (e < |lines| ==> !IsRow(lines[e].text, CELL))
    decreases |lines| - i
  {
    if i < |lines| && IsRow(lines[i].text, CELL) {
      BodyEndRows(lines, i + 1);
    }
  }

  lemma {:induction false} RecognizedIsCandidate(lines: seq<Line>, h: nat, first: nat, last: nat)
    requires Recognized(lines, h, first, last).Some?
    ensures Candidate(lines, Recognized(lines, h, first, last).value, first, last)
  {
    hide Candidate;
    if !Candidate(lines, h, first, last) && h > 0 {
      RecognizedIsCandidate(lines, h - 1, first, last);
    }
  }

  lemma {:induction false} CandidateIsTable(lines: seq<Line>, h: nat, first: nat, last: nat)
    requires Candidate(lines, h, first, last)
    ensures IsTable(lines, h, BodyEnd(lines, h + 2))
  {
    BodyEndRows(lines, h + 2);
  }

  function Tabled(lines: seq<Line>, start: nat, end: nat): Edit
    requires Canonical(lines) && start <= end <= |Join(lines)|
  {
    TouchedBounds(lines, start, end);
    var (first, last) := Touched(lines, start, end);
    var found := Recognized(lines, first, first, last);
    if found.None? then Made(lines, first, last, start, end)
    else
      RecognizedIsCandidate(lines, first, first, last);
      CandidateIsTable(lines, found.value, first, last);
      Unmade(lines, found.value, BodyEnd(lines, found.value + 2), start, end)
  }

  // ---- The editor's loops ----

  method RecognizedTable(located: seq<SourceLine>, first: nat, last: nat, ghost lines: seq<Line>)
    returns (found: Option<nat>, end: nat)
    requires Locates(located, lines) && first < |lines|
    ensures found == Recognized(lines, first, first, last)
    ensures found.Some? ==> found.value + 2 <= |lines| && end == BodyEnd(lines, found.value + 2)
  {
    hide IsRow, IsSeparator, Join, Start;
    var h: nat := first;
    end := 0;
    while true
      invariant h <= first && Recognized(lines, first, first, last) == Recognized(lines, h, first, last)
      decreases h
    {
      if h + 1 < |located| && IsRow(located[h].text, COLUMN) && IsSeparator(located[h + 1].text) {
        end := h + 2;
        while end < |located| && IsRow(located[end].text, CELL)
          invariant h + 2 <= end <= |lines| && BodyEnd(lines, h + 2) == BodyEnd(lines, end)
        {
          end := end + 1;
        }
        if !(first < h || last > end - 1 || first == h + 1) {
          return Some(h), end;
        }
      }
      if h == 0 {
        return None, 0;
      }
      h := h - 1;
    }
  }

  method MapBack(located: seq<SourceLine>, h: nat, e: nat, eol: string, restored: string, p: nat,
        ghost lines: seq<Line>) returns (r: nat)
    requires Locates(located, lines) && IsTable(lines, h, e) && restored == Spread(Values(lines, h, e), eol)
    ensures r == Back(lines, h, e, eol, 0, 0, p)
  {
    hide Back, Spread, Values, Encoded, Unescape, Start, IsRow;
    var offset: nat := 0;
    for row := 0 to e - h - 1
      invariant Back(lines, h, e, eol, 0, 0, p) == Back(lines, h, e, eol, row, offset, p)
    {
      BackStep(lines, h, e, eol, row, offset, p);
      var line := located[RowIndex(h, row)];
      var code := Encoded(line.text, Suffix(row));
      if p <= line.end - |Suffix(row)| {
        var prefix := UnescapeCell(code[..Clamp(p - (line.start + |LEAD|), |code|)]);
        return located[h].start + offset + |prefix|;
      }
      var value := UnescapeCell(code);
      offset := offset + |value| + |eol|;
    }
    BackEnd(lines, h, e, eol, offset, p);
    return located[h].start + |restored|;
  }

  lemma {:induction false} BackStep(lines: seq<Line>, h: nat, e: nat, eol: string, row: nat, offset: nat, p: nat)
    requires IsTable(lines, h, e) && row < e - h - 1
    ensures var line, code := Located(lines, RowIndex(h, row)), RowCode(lines, h, e, row);
            Back(lines, h, e, eol, row, offset, p)
            == if p <= line.end - |Suffix(row)| then
                 Start(lines, h) + offset + |Unescape(code[..Clamp(p - (line.start + |LEAD|), |code|)])|
               else Back(lines, h, e, eol, row + 1, offset + |Unescape(code)| + |eol|, p)
  {
    hide Spread, Values, Encoded, Unescape, Start, IsRow, Clamp, Join, Whole;
  }

  lemma {:induction false} BackEnd(lines: seq<Line>, h: nat, e: nat, eol: string, offset: nat, p: nat)
    requires IsTable(lines, h, e)
    ensures Back(lines, h, e, eol, e - h - 1, offset, p) == Start(lines, h) + |Spread(Values(lines, h, e), eol)|
  {
  }

  lemma {:induction false} SpreadMore(values: seq<string>, value: string, eol: string)
    requires values != []
    ensures Spread(values + [value], eol) == Spread(values, eol) + eol + value
  {
    if |values| == 1 {
      assert (values + [value])[1..] == [value];
    } else {
      SpreadMore(values[1..], value, eol);
      assert (values + [value])[1..] == values[1..] + [value];
      assert values[0] + eol + (Spread(values[1..], eol) + eol + value)
             == (values[0] + eol + Spread(values[1..], eol)) + eol + value;
    }
  }

  method JoinValues(located: seq<SourceLine>, h: nat, e: nat, eol: string, ghost lines: seq<Line>)
    returns (restored: string)
    requires Locates(located, lines) && IsTable(lines, h, e)
    ensures restored == Spread(Values(lines, h, e), eol)
  {
    restored := "";
    for row := 0 to e - h - 1
      invariant restored == Spread(Values(lines, h, e)[..row], eol)
    {
      SpreadStep(lines, h, e, row, eol);
      hide Spread, Values, RowCode, Unescape, Encoded, IsRow, Start;
      var value := UnescapeCell(Encoded(located[RowIndex(h, row)].text, Suffix(row)));
      restored := if row > 0 then restored + eol + value else value;
    }
    assert Values(lines, h, e)[..e - h - 1] == Values(lines, h, e);
  }

  lemma {:induction false} SpreadStep(lines: seq<Line>, h: nat, e: nat, row: nat, eol: string)
    requires IsTable(lines, h, e) && row < e - h - 1
    ensures var values, value := Values(lines, h, e), Unescape(Encoded(lines[RowIndex(h, row)].text, Suffix(row)));
            Spread(values[..row + 1], eol) == if row > 0 then Spread(values[..row], eol) + eol + value else value
  {
    assert Values(lines, h, e)[row] == Unescape(Encoded(lines[RowIndex(h, row)].text, Suffix(row)));
    hide Values, Unescape, Encoded, IsRow;
    SpreadTake(Values(lines, h, e), row, eol);
  }

  lemma {:induction false} SpreadTake(values: seq<string>, row: nat, eol: string)
    requires row < |values|
    ensures Spread(values[..row + 1], eol) == if row > 0 then Spread(values[..row], eol) + eol + values[row]
            else values[row]
  {
    assert values[..row + 1] == values[..row] + [values[row]];
    if row > 0 {
      SpreadMore(values[..row], values[row], eol);
    } else {
      assert values[..1] == [values[row]];
    }
  }

  method Unmake(source: string, located: seq<SourceLine>, h: nat, e: nat, start: nat, end: nat, ghost lines: seq<Line>)
    returns (r: Edit)
    requires Join(lines) == source && Locates(located, lines) && IsTable(lines, h, e)
    ensures r == Unmade(lines, h, e, start, end)
  {
    hide Back, Spread, Values, LocalEnding, Inner, Before, After, Join, Start, IsRow;
    var eol := LocalLineEnding(located, h, e - 1, lines);
    var restored := JoinValues(located, h, e, eol, lines);
    SlicesAround(lines, h, e - 1);
    var value := source[..located[h].start] + restored + source[located[e - 1].end..];
    var s := MapBack(located, h, e, eol, restored, start, lines);
    var t := MapBack(located, h, e, eol, restored, end, lines);
    return Edit(value, s, t);
  }

  /** The lines of a table up to the row `k`, and that row's line. */
  lemma {:induction false} RowOfTable(rows: seq<string>, eol: string, lastEol: string, k: nat)
    requires k < |rows|
    ensures var t, at := TableRows(rows, eol, lastEol), RowIndex(0, k);
            && at < |t| && t[at].text == RowText(rows[k], Suffix(k))
            && t[at].eol == (if k > 0 && k + 1 == |rows| then lastEol else eol)
            && Join(t[..at + 1]) == Join(t[..at]) + RowText(rows[k], Suffix(k)) + t[at].eol
  {
    var t, at := TableRows(rows, eol, lastEol), RowIndex(0, k);
    assert k > 0 ==> t[at] == Body(rows[1..], eol, lastEol)[k - 1];
    hide TableRows, Body, RowText;
    JoinTake(t, at);
  }

  lemma {:induction false} JoinTake(t: seq<Line>, at: nat)
    requires at < |t|
    ensures Join(t[..at + 1]) == Join(t[..at]) + t[at].text + t[at].eol
  {
    assert t[..at + 1] == t[..at] + [t[at]];
    JoinWithLast(t[..at], t[at]);
    assert Join(t[..at]) + (t[at].text + t[at].eol) == Join(t[..at]) + t[at].text + t[at].eol;
  }

  lemma {:induction false} SeparatorOfTable(rows: seq<string>, eol: string, lastEol: string)
    requires rows != []
    ensures var t := TableRows(rows, eol, lastEol);
            Join(t[..2]) == Join(t[..1]) + SEPARATOR + (if |rows| == 1 then lastEol else eol)
  {
    var t := TableRows(rows, eol, lastEol);
    assert t[1] == Line(SEPARATOR, if |rows| == 1 then lastEol else eol);
    hide TableRows;
    JoinTake(t, 1);
  }

  /** The inserted text after `k` rows. */
  ghost predicate Written(rows: seq<string>, eol: string, lastEol: string, k: nat, generated: string)
    requires k <= |rows| && rows != []
  {
    var t := TableRows(rows, eol, lastEol);
    if k == 0 then generated == ""
    else if k < |rows| then generated == Join(t[..if k == 1 then 1 else k + 1])
    else if k == 1 then generated + eol == Join(t[..1])
    else generated + lastEol == Join(t)
  }

  /** One row more: before it, at the second row, the separator; after it, unless it is the last, a break. */
  lemma {:induction false} WrittenMore(rows: seq<string>, eol: string, lastEol: string, k: nat, generated: string)
    requires k < |rows| && Written(rows, eol, lastEol, k, generated)
    ensures var before := if k == 1 then generated + (SEPARATOR + eol) else generated;
            var row := before + RowText(rows[k], Suffix(k));
            && before == Join(TableRows(rows, eol, lastEol)[..RowIndex(0, k)])
            && Written(rows, eol, lastEol, k + 1, if k + 1 < |rows| then row + eol else row)
  {
    var t := TableRows(rows, eol, lastEol);
    assert t[..0] == [];
    assert k + 1 == |rows| > 1 ==> t[..k + 2] == t;
    hide TableRows, RowText, Join;
    RowOfTable(rows, eol, lastEol, k);
    SeparatorOfTable(rows, eol, lastEol);
    var before := if k == 1 then generated + (SEPARATOR + eol) else generated;
    assert k == 1 ==> before == generated + SEPARATOR + eol;
    assert k == 0 ==> Join([]) == "" by {
      EmptyJoin();
    }
    assert before == Join(t[..RowIndex(0, k)]);
  }

  lemma {:induction false} EmptyJoin()
    ensures Join([]) == ""
  {
  }

  /** The rows generated one after the other; `cellStarts` is where each first cell begins. */
  method Generate(rows: seq<string>, eol: string, ghost lastEol: string)
    returns (inserted: string, cellStarts: seq<nat>)
    requires rows != []
    ensures inserted + lastEol == Join(TableRows(rows, eol, lastEol))
    ensures |cellStarts| == |rows|
    ensures forall i | 0 <= i < |rows| ::
              cellStarts[i] == |Join(TableRows(rows, eol, lastEol)[..RowIndex(0, i)])| + |LEAD|
  {
    hide Written, TableRows, Join, RowText, EscapeCell, Suffix, Body, Escaping, ReplaceAll;
    inserted := "";
    cellStarts := [];
    WrittenStart(rows, eol, lastEol);
    for index := 0 to |rows|
      invariant Written(rows, eol, lastEol, index, inserted) && |cellStarts| == index
      invariant forall i | 0 <= i < index ::
                  cellStarts[i] == |Join(TableRows(rows, eol, lastEol)[..RowIndex(0, i)])| + |LEAD|
    {
      WrittenMore(rows, eol, lastEol, index, inserted);
      RowPieces(rows[index], index);
      var escaped := EscapeCell(rows[index]);
      var suffix := if index == 0 then COLUMN else CELL;
      var row := LEAD + escaped + suffix;
      if index == 1 {
        inserted := inserted + (SEPARATOR + eol);
      }
      cellStarts := cellStarts + [|inserted| + |LEAD|];
      inserted := inserted + row;
      if index + 1 < |rows| {
        inserted := inserted + eol;
      }
    }
    WrittenEnd(rows, eol, lastEol, inserted);
    if |rows| == 1 {
      inserted := inserted + (eol + SEPARATOR);
    }
  }

  lemma {:induction false} WrittenStart(rows: seq<string>, eol: string, lastEol: string)
    requires rows != []
    ensures Written(rows, eol, lastEol, 0, "")
  {
  }

  lemma {:induction false} RowPieces(t: string, k: nat)
    ensures RowText(t, Suffix(k)) == LEAD + EscapeCell(t) + (if k == 0 then COLUMN else CELL)
  {
    EscapedInOnePass(t);
  }

  lemma {:induction false} WrittenEnd(rows: seq<string>, eol: string, lastEol: string, generated: string)
    requires rows != [] && Written(rows, eol, lastEol, |rows|, generated)
    ensures (if |rows| == 1 then generated + (eol + SEPARATOR) else generated) + lastEol
            == Join(TableRows(rows, eol, lastEol))
  {
    if |rows| == 1 {
      SeparatorOfTable(rows, eol, lastEol);
      assert TableRows(rows, eol, lastEol)[..2] == TableRows(rows, eol, lastEol);
      hide TableRows, Join;
      assert generated + (eol + SEPARATOR) + lastEol == (generated + eol) + SEPARATOR + lastEol;
    }
  }

  lemma {:induction false} TakeOfThree(a: seq<Line>, b: seq<Line>, c: seq<Line>, i: nat)
    requires i <= |b|
    ensures (a + b + c)[..|a| + i] == a + b[..i]
  {
  }

  /** Where the rows of the table are in the made text. */
  lemma {:induction false} MadeStart(lines: seq<Line>, first: nat, last: nat, i: nat)
    requires Canonical(lines) && first <= last < |lines|
    requires i <= |TableRows(SourceRows(lines, first, last), LocalEnding(lines, first, last), lines[last].eol)|
    ensures var t := TableRows(SourceRows(lines, first, last), LocalEnding(lines, first, last), lines[last].eol);
            && first + i <= |MadeLines(lines, first, last)|
            && Start(MadeLines(lines, first, last), first + i) == Start(lines, first) + |Join(t[..i])|
  {
    hide TableRows, SourceRows, LocalEnding, Join, Canonical, Inner;
    StartInside(lines[..first],
                TableRows(SourceRows(lines, first, last), LocalEnding(lines, first, last), lines[last].eol),
                lines[last + 1..], i);
  }

  lemma {:induction false} StartInside(a: seq<Line>, b: seq<Line>, c: seq<Line>, i: nat)
    requires i <= |b|
    ensures Start(a + b + c, |a| + i) == |Join(a)| + |Join(b[..i])|
  {
    hide Join;
    TakeOfThree(a, b, c, i);
    JoinAppend(a, b[..i]);
  }

  /** The made text is the text around the touched lines with the inserted one between. */
  lemma {:induction false} MadeText(lines: seq<Line>, first: nat, last: nat, inserted: string)
    requires first <= last < |lines|
    requires inserted + lines[last].eol
             == Join(TableRows(SourceRows(lines, first, last), LocalEnding(lines, first, last), lines[last].eol))
    ensures Join(MadeLines(lines, first, last)) == Before(lines, first) + inserted + After(lines, last)
  {
    var t := TableRows(SourceRows(lines, first, last), LocalEnding(lines, first, last), lines[last].eol);
    hide TableRows, SourceRows, LocalEnding, Join, Inner;
    JoinAppend(lines[..first] + t, lines[last + 1..]);
    JoinAppend(lines[..first], t);
    FourParts(Join(lines[..first]), inserted, lines[last].eol, Join(lines[last + 1..]));
  }

  lemma {:induction false} FourParts(a: string, b: string, c: string, d: string)
    ensures (a + (b + c)) + d == a + b + (c + d)
  {
  }

  method MapForward(located: seq<SourceLine>, first: nat, last: nat, cellStarts: seq<nat>, p: nat,
        ghost lines: seq<Line>) returns (r: nat)
    requires Canonical(lines) && Locates(located, lines) && first <= last < |lines| && |cellStarts| == last - first + 1
    ensures var (row, column) := RowFrom(lines, first, last, 0, p);
            r == Start(lines, first) + cellStarts[row] + |Escaping(lines[first + row].text[..column])|
  {
    hide RowFrom, Start, Join, Escaping, EscapeCell, ReplaceAll, Canonical, Whole;
    for i := 0 to last - first + 1
      invariant RowFrom(lines, first, last, 0, p) == RowFrom(lines, first, last, i, p)
    {
      RowFromStep(lines, first, last, i, p);
      var line := located[first + i];
      if p <= line.end {
        var column := Clamp(p - line.start, |line.text|);
        EscapedInOnePass(line.text[..column]);
        return located[first].start + cellStarts[i] + |EscapeCell(line.text[..column])|;
      }
    }
    RowFromEnd(lines, first, last, p);
    var text := located[last].text;
    assert text[..|text|] == text;
    EscapedInOnePass(text);
    return located[first].start + cellStarts[last - first] + |EscapeCell(text)|;
  }

  lemma {:induction false} RowFromStep(lines: seq<Line>, first: nat, last: nat, i: nat, p: nat)
    requires first <= last < |lines| && i <= last - first
    ensures var line := Located(lines, first + i);
            RowFrom(lines, first, last, i, p)
            == if p <= line.end then (i, Clamp(p - line.start, |line.text|)) else RowFrom(lines, first, last, i + 1, p)
  {
    hide Start;
  }

  lemma {:induction false} RowFromEnd(lines: seq<Line>, first: nat, last: nat, p: nat)
    requires first <= last < |lines|
    ensures RowFrom(lines, first, last, last - first + 1, p) == (last - first, |lines[last].text|)
  {
  }

  method Make(source: string, located: seq<SourceLine>, first: nat, last: nat, start: nat, end: nat,
        ghost lines: seq<Line>) returns (r: Edit)
    requires Canonical(lines) && Join(lines) == source && Locates(located, lines) && first <= last < |lines|
    ensures r == Made(lines, first, last, start, end)
  {
    MadeLength(lines, first, last);
    var value, cellStarts := MakeText(source, located, first, last, lines);
    CellsPlaced(lines, first, last, cellStarts, start);
    CellsPlaced(lines, first, last, cellStarts, end);
    SlicesAround(lines, first, last);
    hide TableRows, LocalEnding, Join, Inner, Canonical, Start, MadeLines, PlacedIn, RowFrom, Escaping, Before, After,
         SourceRows, CellStarts;
    if source[located[first].start..located[last].end] == "" {
      var s := located[first].start + cellStarts[0];
      return Edit(value, s, s + |PLACEHOLDER|);
    }
    var s := MapForward(located, first, last, cellStarts, start, lines);
    var t := MapForward(located, first, last, cellStarts, end, lines);
    return Edit(value, s, t);
  }

  /** Where the first cells begin, relative to the table. */
  ghost predicate CellStarts(lines: seq<Line>, first: nat, last: nat, cellStarts: seq<nat>)
    requires first <= last < |lines|
  {
    var rows := SourceRows(lines, first, last);
    var t := TableRows(rows, LocalEnding(lines, first, last), lines[last].eol);
    && |cellStarts| == |rows| == last - first + 1
    && forall i | 0 <= i < |rows| :: cellStarts[i] == |Join(t[..RowIndex(0, i)])| + |LEAD|
  }

  method TouchedTexts(located: seq<SourceLine>, first: nat, last: nat, ghost lines: seq<Line>)
    returns (texts: seq<string>)
    requires Locates(located, lines) && first <= last < |lines|
    ensures texts == Texts(lines, first, last)
  {
    texts := [];
    for i := first to last + 1
      invariant texts == Texts(lines, first, last)[..i - first]
    {
      texts := texts + [located[i].text];
    }
  }

  method MakeText(source: string, located: seq<SourceLine>, first: nat, last: nat, ghost lines: seq<Line>)
    returns (value: string, cellStarts: seq<nat>)
    requires Canonical(lines) && Join(lines) == source && Locates(located, lines) && first <= last < |lines|
    ensures value == Join(MadeLines(lines, first, last)) && CellStarts(lines, first, last, cellStarts)
  {
    SlicesAround(lines, first, last);
    MadeLength(lines, first, last);
    hide TableRows, LocalEnding, Join, Inner, Canonical, Start, MadeLines, Before, After;
    var original := source[located[first].start..located[last].end];
    var rows := [PLACEHOLDER];
    if original != "" {
      rows := TouchedTexts(located, first, last, lines);
    }
    assert rows == SourceRows(lines, first, last);
    hide SourceRows;
    var eol := LocalLineEnding(located, first, last, lines);
    var inserted, starts := Generate(rows, eol, lines[last].eol);
    MadeText(lines, first, last, inserted);
    return source[..located[first].start] + inserted + source[located[last].end..], starts;
  }

  /** The generated cell starts are the cells' places in the made lines. */
  lemma {:induction false} CellsPlaced(lines: seq<Line>, first: nat, last: nat, cellStarts: seq<nat>, p: nat)
    requires Canonical(lines) && first <= last < |lines| && |MadeLines(lines, first, last)| == |lines| + 1
    requires CellStarts(lines, first, last, cellStarts)
    ensures |cellStarts| == last - first + 1
    ensures Start(lines, first) + cellStarts[0] == Start(MadeLines(lines, first, last), first) + |LEAD|
    ensures var (row, column) := RowFrom(lines, first, last, 0, p);
            PlacedIn(lines, first, last, p)
              == Start(lines, first) + cellStarts[row] + |Escaping(lines[first + row].text[..column])|
  {
    hide TableRows, LocalEnding, Join, Inner, Canonical, MadeLines, Escaping, SourceRows, Start, RowFrom;
    CellPlaced(lines, first, last, 0, cellStarts[0]);
    var (row, column) := RowFrom(lines, first, last, 0, p);
    CellPlaced(lines, first, last, row, cellStarts[row]);
  }

  lemma {:induction false} CellPlaced(lines: seq<Line>, first: nat, last: nat, row: nat, cellStart: nat)
    requires Canonical(lines) && first <= last < |lines| && |MadeLines(lines, first, last)| == |lines| + 1
    requires row <= last - first && |SourceRows(lines, first, last)| == last - first + 1
    requires cellStart
             == |Join(TableRows(SourceRows(lines, first, last), LocalEnding(lines, first, last),
                                lines[last].eol)[..RowIndex(0, row)])| + |LEAD|
    ensures RowIndex(first, row) <= |MadeLines(lines, first, last)|
    ensures Start(MadeLines(lines, first, last), RowIndex(first, row)) + |LEAD| == Start(lines, first) + cellStart
  {
    hide TableRows, LocalEnding, Join, Inner, Canonical, MadeLines, Escaping, SourceRows, Start;
    MadeStart(lines, first, last, RowIndex(0, row));
  }

  /** The action on a source. */
  method TableAction(source: string, start: nat, end: nat) returns (r: Edit)
    requires start <= end <= |source|
    ensures Canonical(Split(source)) && Join(Split(source)) == source
    ensures r == Tabled(Split(source), start, end)
  {
    SplitIsCanonical(source);
    hide Join, Start, Canonical, Split, Made, Unmade, Recognized, BodyEnd, Touched;
    var located, first, last := TouchedLineRange(source, start, end);
    TouchedBounds(Split(source), start, end);
    var found, e := RecognizedTable(located, first, last, Split(source));
    if found.Some? {
      RecognizedIsCandidate(Split(source), first, first, last);
      CandidateIsTable(Split(source), found.value, first, last);
      r := Unmake(source, located, found.value, e, start, end, Split(source));
    } else {
      r := Make(source, located, first, last, start, end, Split(source));
    }
  }
}
