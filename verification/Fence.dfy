/**
 Fenced code: the touched lines are put between two fence lines longer than any
 backtick run in them, or taken out of an enclosing pair of fence lines.
 */
module Fence {
  import opened Text
  import opened Lines
  import opened InlineCode

  const CODE := "code"

  /** A line of three or more backticks and nothing else. */
  predicate IsFence(text: string) {
    |text| >= 3 && text == Repeat('`', |text|)
  }

  /** The touched lines stand directly between fence lines, the closing one no shorter. */
  predicate Enclosed(lines: seq<Line>, first: nat, last: nat) {
    && 0 < first <= last && last + 1 < |lines|
    && IsFence(lines[first - 1].text) && IsFence(lines[last + 1].text)
    && |lines[last + 1].text| >= |lines[first - 1].text|
  }

  function Filled(content: string): string {
    if content == "" then CODE else content
  }

  function Marker(content: string): string {
    var n := LongestRun(content) + 1;
    Repeat('`', if n > 3 then n else 3)
  }

  /** The touched lines taken out of their fences; `start` and `end` are relative to the first touched line. */
  function Opened(lines: seq<Line>, first: nat, last: nat, start: nat, end: nat): Edit
    requires first <= last < |lines| && Enclosed(lines, first, last)
  {
    Edit(Before(lines, first - 1) + Inner(lines, first, last) + After(lines, last + 1),
         Start(lines, first - 1) + start, Start(lines, first - 1) + end)
  }

  function Closed(lines: seq<Line>, first: nat, last: nat, start: nat, end: nat): Edit
    requires first <= last < |lines|
  {
    var original := Inner(lines, first, last);
    var content := Filled(original);
    var marker, eol := Marker(content), LocalEnding(lines, first, last);
    var base := Start(lines, first) + |marker| + |eol|;
    Edit(Before(lines, first) + (marker + eol + content + eol + marker) + After(lines, last),
         if original == "" then base else base + start,
         if original == "" then base + |content| else base + end)
  }

  function Fenced(lines: seq<Line>, start: nat, end: nat): Edit
    requires Canonical(lines) && start <= end <= |Join(lines)|
  {
    TouchedBounds(lines, start, end);
    var (first, last) := Touched(lines, start, end);
    var base := Start(lines, first);
    if Enclosed(lines, first, last) then Opened(lines, first, last, start - base, end - base)
    else Closed(lines, first, last, start - base, end - base)
  }

  /** The action on a source: the positions and slices of the editor's code. */
  method FencedCode(source: string, start: nat, end: nat) returns (r: Edit)
    requires start <= end <= |source|
    ensures Canonical(Split(source)) && Join(Split(source)) == source
    ensures r == Fenced(Split(source), start, end)
  {
    SplitIsCanonical(source);
    var located, first, last := TouchedLineRange(source, start, end);
    r := FenceLines(source, located, first, last, start, end, Split(source));
  }

  method FenceLines(source: string, located: seq<SourceLine>, first: nat, last: nat, start: nat, end: nat,
        ghost lines: seq<Line>)
    returns (r: Edit)
    requires Canonical(lines) && Join(lines) == source && Locates(located, lines)
    requires start <= end <= |source| && (first, last) == Touched(lines, start, end)
    ensures r == Fenced(lines, start, end)
  {
    hide Canonical, Join, Split, Opened, Closed, Touched, Inner, Before, After, LocalEnding, IndexAt;
    TouchedBounds(lines, start, end);
    if first > 0 && last + 1 < |located| {
      var opening, closing := located[first - 1], located[last + 1];
      if IsFence(opening.text) && IsFence(closing.text) && |closing.text| >= |opening.text| {
        r := Open(source, located, first, last, start - located[first].start, end - located[first].start, lines);
        return;
      }
    }
    var eol := LocalLineEnding(located, first, last, lines);
    r := Close(source, located[first], located[last], eol, start - located[first].start, end - located[first].start,
               lines, first, last);
  }

  method Open(source: string, located: seq<SourceLine>, first: nat, last: nat, start: nat, end: nat,
        ghost lines: seq<Line>)
    returns (r: Edit)
    requires Canonical(lines) && Join(lines) == source && Locates(located, lines)
    requires first <= last < |lines| && Enclosed(lines, first, last)
    ensures r == Opened(lines, first, last, start, end)
  {
    hide Canonical, Join;
    SlicesAround(lines, first, last);
    SlicesAround(lines, first - 1, last + 1);
    var content := source[located[first].start..located[last].end];
    var restoredStart := located[first - 1].start;
    return Edit(source[..restoredStart] + content + source[located[last + 1].end..], restoredStart + start,
                restoredStart + end);
  }

  method Close(source: string, firstLine: SourceLine, lastLine: SourceLine, eol: string, start: nat, end: nat,
        ghost lines: seq<Line>, ghost first: nat, ghost last: nat)
    returns (r: Edit)
    requires Join(lines) == source && first <= last < |lines|
    requires firstLine == Located(lines, first) && lastLine == Located(lines, last)
    requires eol == LocalEnding(lines, first, last)
    ensures r == Closed(lines, first, last, start, end)
  {
    SlicesAround(lines, first, last);
    var original := source[firstLine.start..lastLine.end];
    var content := if original == "" then CODE else original;
    var longest := MaximumBacktickRun(content);
    var marker := Repeat('`', if longest + 1 > 3 then longest + 1 else 3);
    var inserted := marker + eol + content + eol + marker;
    var contentStart := firstLine.start + |marker| + |eol|;
    return Edit(source[..firstLine.start] + inserted + source[lastLine.end..],
                if original == "" then contentStart else contentStart + start,
                if original == "" then contentStart + |content| else contentStart + end);
  }

  /** The text of the last content line after closing. */
  function LastText(lines: seq<Line>, first: nat, last: nat): string
    requires first <= last < |lines|
  {
    if Inner(lines, first, last) == "" then CODE else lines[last].text
  }

  function HeadLines(lines: seq<Line>, first: nat, last: nat): seq<Line>
    requires first <= last < |lines|
  {
    lines[..first] + [Line(Marker(Filled(Inner(lines, first, last))), LocalEnding(lines, first, last))]
  }

  function BodyLines(lines: seq<Line>, first: nat, last: nat): seq<Line>
    requires first <= last < |lines|
  {
    lines[first..last] + [Reread(LastText(lines, first, last), LocalEnding(lines, first, last))]
  }

  function TailLines(lines: seq<Line>, first: nat, last: nat): seq<Line>
    requires first <= last < |lines|
  {
    [Line(Marker(Filled(Inner(lines, first, last))), lines[last].eol)] + lines[last + 1..]
  }

  /** The lines of the text that closing returns. */
  function ClosedLines(lines: seq<Line>, first: nat, last: nat): seq<Line>
    requires first <= last < |lines|
  {
    HeadLines(lines, first, last) + (BodyLines(lines, first, last) + TailLines(lines, first, last))
  }

  lemma {:induction false} MarkerIsFence(content: string)
    ensures IsFence(Marker(content))
  {
  }

  /** A fence line reads back as it was written. */
  lemma {:induction false} MarkerLine(content: string, eol: string)
    requires eol in {"\n", "\r\n"}
    ensures Terminated(Line(Marker(content), eol))
  {
    var marker := Marker(content);
    assert marker[|marker| - 1..][0] == '`';
  }

  lemma {:induction false} HeadPart(lines: seq<Line>, first: nat, last: nat)
    requires Canonical(lines) && first <= last < |lines|
    ensures AllTerminated(HeadLines(lines, first, last))
    ensures Join(HeadLines(lines, first, last))
            == Before(lines, first) + (Marker(Filled(Inner(lines, first, last))) + LocalEnding(lines, first, last))
  {
    var content, eol := Filled(Inner(lines, first, last)), LocalEnding(lines, first, last);
    LocalEndingIsBreak(lines, first, last);
    MarkerLine(content, eol);
    JoinWithLast(lines[..first], Line(Marker(content), eol));
  }

  lemma {:induction false} BodyPart(lines: seq<Line>, first: nat, last: nat)
    requires Canonical(lines) && first <= last < |lines|
    ensures AllTerminated(BodyLines(lines, first, last))
    ensures Join(BodyLines(lines, first, last)) == Filled(Inner(lines, first, last)) + LocalEnding(lines, first, last)
  {
    hide LocalEnding, Join, Reread;
    var text, eol, body := LastText(lines, first, last), LocalEnding(lines, first, last), Join(lines[first..last]);
    LocalEndingIsBreak(lines, first, last);
    assert last < |lines| - 1 ==> Terminated(lines[last]);
    RereadTerminates(text, eol);
    JoinWithLast(lines[first..last], Reread(text, eol));
    Associate(body, text, eol);
    if Inner(lines, first, last) == "" {
      assert body == "";
    }
  }

  lemma {:induction false} Associate(a: string, b: string, c: string)
    ensures a + (b + c) == (a + b) + c
  {
  }

  lemma {:induction false} TailPart(lines: seq<Line>, first: nat, last: nat)
    requires Canonical(lines) && first <= last < |lines|
    ensures Canonical(TailLines(lines, first, last))
    ensures Join(TailLines(lines, first, last)) == Marker(Filled(Inner(lines, first, last))) + After(lines, last)
  {
    var content, rest := Filled(Inner(lines, first, last)), lines[last + 1..];
    var line := Line(Marker(content), lines[last].eol);
    if last < |lines| - 1 {
      assert Terminated(lines[last]);
      MarkerLine(content, lines[last].eol);
      CanonicalMore(line, rest);
    } else {
      assert rest == [] && [line] + rest == [line];
      assert Join([line]) == Whole(line) + Join([]);
    }
    assert Marker(content) + (lines[last].eol + Join(rest)) == (Marker(content) + lines[last].eol) + Join(rest);
  }

  lemma {:induction false} ClosedLinesAreCanonical(lines: seq<Line>, first: nat, last: nat)
    requires Canonical(lines) && first <= last < |lines|
    ensures Canonical(ClosedLines(lines, first, last))
  {
    HeadPart(lines, first, last);
    BodyPart(lines, first, last);
    TailPart(lines, first, last);
    CanonicalAppend(BodyLines(lines, first, last), TailLines(lines, first, last));
    CanonicalAppend(HeadLines(lines, first, last), BodyLines(lines, first, last) + TailLines(lines, first, last));
  }

  lemma {:induction false} ClosedLinesJoin(lines: seq<Line>, first: nat, last: nat, start: nat, end: nat)
    requires Canonical(lines) && first <= last < |lines|
    ensures Join(ClosedLines(lines, first, last)) == Closed(lines, first, last, start, end).value
  {
    var H, B, T := HeadLines(lines, first, last), BodyLines(lines, first, last), TailLines(lines, first, last);
    var original := Inner(lines, first, last);
    var marker, eol := Marker(Filled(original)), LocalEnding(lines, first, last);
    JoinAppend(H, B + T);
    JoinAppend(B, T);
    HeadPart(lines, first, last);
    BodyPart(lines, first, last);
    TailPart(lines, first, last);
    RegroupFence(Before(lines, first), marker, eol, Filled(original), After(lines, last));
  }

  lemma {:induction false} RegroupFence(a: string, marker: string, eol: string, content: string, z: string)
    ensures a + (marker + eol + content + eol + marker) + z == (a + (marker + eol)) + ((content + eol) + (marker + z))
  {
  }

  /** Where the parts of a closed source's line list lie. */
  lemma {:induction false} ClosedShape(lines: seq<Line>, first: nat, last: nat)
    requires first <= last < |lines|
    ensures var C, marker := ClosedLines(lines, first, last), Marker(Filled(Inner(lines, first, last)));
            && |C| == |lines| + 2
            && C[..first] == lines[..first] && C[first] == Line(marker, LocalEnding(lines, first, last))
            && C[first + 1..last + 1] == lines[first..last]
            && C[last + 1] == Reread(LastText(lines, first, last), LocalEnding(lines, first, last))
            && C[last + 2] == Line(marker, lines[last].eol) && C[last + 3..] == lines[last + 1..]
  {
    hide Marker, Filled, Inner, LocalEnding, Reread, LastText;
    SixParts(lines[..first], HeadLines(lines, first, last)[first], lines[first..last],
             BodyLines(lines, first, last)[last - first], TailLines(lines, first, last)[0], lines[last + 1..]);
  }

  lemma {:induction false} SixParts(a: seq<Line>, p: Line, b: seq<Line>, q: Line, r: Line, c: seq<Line>)
    ensures var s := (a + [p]) + ((b + [q]) + ([r] + c)); var n := |a| + 1 + |b|;
            && |s| == n + 2 + |c|
            && s[..|a|] == a && s[|a|] == p && s[|a| + 1..n] == b && s[n] == q && s[n + 1] == r && s[n + 2..] == c
  {
  }

  /** Where the lines of a closed source start. */
  lemma {:induction false} ClosedStarts(lines: seq<Line>, first: nat, last: nat)
    requires Canonical(lines) && first <= last < |lines|
    ensures var C := ClosedLines(lines, first, last);
            var content, eol := Filled(Inner(lines, first, last)), LocalEnding(lines, first, last);
            var base := Start(lines, first) + |Marker(content)| + |eol|;
            && |C| == |lines| + 2
            && Start(C, first) == Start(lines, first)
            && Start(C, first + 1) == base
            && Start(C, last + 1) == base + |Join(lines[first..last])|
            && Start(C, last + 2) == base + |content| + |eol|
            && Start(C, last + 3) == base + |content| + |eol| + |Marker(content)| + |lines[last].eol|
  {
    hide Join, Marker, LocalEnding, Inner, LastText, Reread;
    var C := ClosedLines(lines, first, last);
    var H, B, T := HeadLines(lines, first, last), BodyLines(lines, first, last), TailLines(lines, first, last);
    HeadPart(lines, first, last);
    BodyPart(lines, first, last);
    assert C[..first] == lines[..first];
    assert C[..first + 1] == H;
    assert C[..last + 1] == H + lines[first..last];
    JoinAppend(H, lines[first..last]);
    assert C[..last + 2] == H + B;
    JoinAppend(H, B);
    assert C[..last + 3] == (H + B) + [T[0]];
    JoinWithLast(H + B, T[0]);
  }

  /**
   The selection, relative to its first line, reaches past a CRLF where the fence
   lines get LF breaks.
   */
  predicate Spills(lines: seq<Line>, first: nat, last: nat, end: nat)
    requires first <= last < |lines|
  {
    && Inner(lines, first, last) != "" && LocalEnding(lines, first, last) == "\n"
    && lines[last].eol == "\r\n" && end == |Join(lines[first..last])| + |Whole(lines[last])|
  }

  lemma {:induction false} InnerOfOne(lines: seq<Line>, i: nat)
    requires i < |lines|
    ensures Inner(lines, i, i) == lines[i].text
  {
  }

  /** The second call's selection starts in the first content line. */
  lemma {:induction false} SecondFirst(lines: seq<Line>, first: nat, last: nat, start: nat, end: nat)
    requires Canonical(lines) && first <= last < |lines|
    requires start <= |Whole(lines[first])| && (lines[first].eol != "" ==> start < |Whole(lines[first])|)
    ensures IndexAt(ClosedLines(lines, first, last), Closed(lines, first, last, start, end).start) == first + 1
  {
    hide Join, Start, ClosedLines, LocalEnding, Inner, Marker;
    var C := ClosedLines(lines, first, last);
    ClosedStarts(lines, first, last);
    ClosedShape(lines, first, last);
    LocalEndingIsBreak(lines, first, last);
    if first < last {
      StartNext(lines, first);
      assert Terminated(lines[first]);
      assert C[first + 1] == C[first + 1..last + 1][0] == lines[first];
      StartNext(C, first + 1);
    } else {
      InnerOfOne(lines, first);
    }
    IndexAtUnique(C, Closed(lines, first, last, start, end).start, first + 1);
  }

  /** A filled-in placeholder is selected inside the one content line. */
  lemma {:induction false} SecondLastEmpty(lines: seq<Line>, first: nat, last: nat, start: nat, end: nat)
    requires Canonical(lines) && first <= last < |lines| && Inner(lines, first, last) == ""
    ensures var e := Closed(lines, first, last, start, end);
            IndexAt(ClosedLines(lines, first, last), LastPosition(e.start, e.end)) == last + 1
  {
    var C, e := ClosedLines(lines, first, last), Closed(lines, first, last, start, end);
    ClosedStarts(lines, first, last);
    IndexAtUnique(C, LastPosition(e.start, e.end), last + 1);
  }

  /** The selection ends in the last content line, or in the closing fence when it spills. */
  lemma {:induction false} SecondLast(lines: seq<Line>, first: nat, last: nat, start: nat, end: nat)
    requires Canonical(lines) && first <= last < |lines| && Inner(lines, first, last) != "" && start <= end
    requires var q := LastPosition(start, end) - |Join(lines[first..last])|;
             0 <= q && end <= |Join(lines[first..last])| + |Whole(lines[last])|
             && (start == end && lines[last].eol != "" ==> first == last && q < |Whole(lines[last])|)
    ensures var e := Closed(lines, first, last, start, end);
            IndexAt(ClosedLines(lines, first, last), LastPosition(e.start, e.end))
            == if Spills(lines, first, last, end) then last + 2 else last + 1
  {
    var C, e := ClosedLines(lines, first, last), Closed(lines, first, last, start, end);
    var eol, J, line := LocalEnding(lines, first, last), |Join(lines[first..last])|, lines[last];
    var p := LastPosition(e.start, e.end);
    ClosedStarts(lines, first, last);
    assert |Inner(lines, first, last)| == J + |line.text|;
    assert p == Start(C, first + 1) + LastPosition(start, end);
    assert eol in {"\n", "\r\n"} && line.eol in {"", "\n", "\r\n"}
           && (first == last && line.eol != "" ==> line.eol == eol) by {
      LocalEndingIsBreak(lines, first, last);
      assert last < |lines| - 1 ==> Terminated(lines[last]);
    }
    LandsIn(C, p, first, last, line, eol, LastPosition(start, end) - J, Spills(lines, first, last, end));
  }

  /** Arithmetic of `SecondLast`: `q` is the last position relative to the last touched line. */
  lemma {:induction false} LandsIn(C: seq<Line>, p: nat, first: nat, last: nat, line: Line, eol: string, q: nat,
        spills: bool)
    requires first <= last && last + 2 < |C| && (spills ==> last + 3 < |C|)
    requires eol in {"\n", "\r\n"} && line.eol in {"", "\n", "\r\n"}
    requires p == Start(C, last + 1) + q && Start(C, last + 2) == Start(C, last + 1) + |line.text| + |eol|
    requires spills ==>
               eol == "\n" && line.eol == "\r\n" && q == |line.text| + 1 && Start(C, last + 2) < Start(C, last + 3)
    requires !spills ==> q < |line.text| + |eol|
    ensures IndexAt(C, p) == if spills then last + 2 else last + 1
  {
    IndexAtUnique(C, p, if spills then last + 2 else last + 1);
  }

  /** A selection relative to the first line it touches, with those lines. */
  ghost predicate Spans(lines: seq<Line>, first: nat, last: nat, start: nat, end: nat) {
    && Canonical(lines) && first <= last < |lines| && start <= end
    && var J := |Join(lines[first..last])|;
       && start <= |Whole(lines[first])| && (lines[first].eol != "" ==> start < |Whole(lines[first])|)
       && J <= LastPosition(start, end) && end <= J + |Whole(lines[last])|
       && (start == end ==> first == last)
  }

  lemma {:induction false} TouchedSpans(lines: seq<Line>, start: nat, end: nat, first: nat, last: nat)
    requires Canonical(lines) && start <= end <= |Join(lines)| && (first, last) == Touched(lines, start, end)
    ensures first <= last && Start(lines, first) <= start
    ensures Spans(lines, first, last, start - Start(lines, first), end - Start(lines, first))
  {
    TouchedBounds(lines, start, end);
    StartSpan(lines, first, last);
  }

  /** The second call touches the content lines, and the closing fence too when the selection spills. */
  lemma {:induction false} SecondTouches(lines: seq<Line>, first: nat, last: nat, start: nat, end: nat)
    requires Spans(lines, first, last, start, end)
    ensures var e := Closed(lines, first, last, start, end);
            Touched(ClosedLines(lines, first, last), e.start, e.end)
            == (first + 1, if Spills(lines, first, last, end) then last + 2 else last + 1)
  {
    SecondFirst(lines, first, last, start, end);
    if Inner(lines, first, last) == "" {
      SecondLastEmpty(lines, first, last, start, end);
    } else {
      SecondLast(lines, first, last, start, end);
    }
  }

  /** The content's last carriage return would join the LF that closing puts after it. */
  predicate Absorbs(lines: seq<Line>, first: nat, last: nat)
    requires first <= last < |lines|
  {
    LocalEnding(lines, first, last) == "\n" && EndsWith(LastText(lines, first, last), "\r")
  }

  /** The source with the placeholder in place of empty content. */
  function FilledSource(lines: seq<Line>, first: nat, last: nat): string
    requires first <= last < |lines|
  {
    Before(lines, first) + Filled(Inner(lines, first, last)) + After(lines, last)
  }

  lemma {:induction false} OpenedLength(lines: seq<Line>, first: nat, last: nat, start: nat, end: nat)
    requires first <= last < |lines| && Enclosed(lines, first, last)
    ensures |Opened(lines, first, last, start, end).value|
            == |Join(lines)| - |Whole(lines[first - 1])| - |lines[last].eol| - |lines[last + 1].text|
  {
    JoinAround(lines, first, last);
    StartNext(lines, first - 1);
    JoinCut(lines[last + 1..], 0);
    assert lines[last + 1..][..0] == [] && lines[last + 1..][1..] == lines[last + 2..];
  }

  lemma {:induction false} ClosedLength(lines: seq<Line>, first: nat, last: nat, start: nat, end: nat)
    requires first <= last < |lines|
    ensures |Closed(lines, first, last, start, end).value| > |Join(lines)|
  {
    JoinAround(lines, first, last);
  }

  /** Opening the content lines of a closed source, when nothing was absorbed. */
  lemma {:induction false} ClosedOpens(lines: seq<Line>, first: nat, last: nat, start: nat, end: nat)
    requires first <= last < |lines| && !Absorbs(lines, first, last)
    ensures var C := ClosedLines(lines, first, last);
            && last + 3 <= |C| && Enclosed(C, first + 1, last + 1)
            && Opened(C, first + 1, last + 1, start, end)
               == Edit(FilledSource(lines, first, last), Start(lines, first) + start, Start(lines, first) + end)
  {
    var C, original := ClosedLines(lines, first, last), Inner(lines, first, last);
    ClosedShape(lines, first, last);
    assert original == "" ==> Join(lines[first..last]) == "";
    assert Inner(C, first + 1, last + 1) == Filled(original);
  }

  /** The action when the touched lines are known. */
  lemma {:induction false} FencedAt(lines: seq<Line>, start: nat, end: nat, first: nat, last: nat)
    requires Canonical(lines) && start <= end <= |Join(lines)| && Touched(lines, start, end) == (first, last)
    ensures first <= last && Start(lines, first) <= start
    ensures Fenced(lines, start, end)
            == if Enclosed(lines, first, last)
               then Opened(lines, first, last, start - Start(lines, first), end - Start(lines, first))
               else Closed(lines, first, last, start - Start(lines, first), end - Start(lines, first))
  {
    TouchedBounds(lines, start, end);
  }

  /** Closing moves the selection with the first content line; a placeholder is selected whole. */
  lemma {:induction false} ClosedMoves(lines: seq<Line>, first: nat, last: nat, start: nat, end: nat)
    requires Canonical(lines) && first <= last < |lines|
    ensures var e := Closed(lines, first, last, start, end); var empty := Inner(lines, first, last) == "";
            && first + 1 <= |ClosedLines(lines, first, last)|
            && e.start == Start(ClosedLines(lines, first, last), first + 1) + (if empty then 0 else start)
            && e.end == Start(ClosedLines(lines, first, last), first + 1) + (if empty then |CODE| else end)
  {
    ClosedStarts(lines, first, last);
  }

  /** What the second call returns when the touched lines are fenced off again. */
  lemma {:induction false} FencedOpens(C: seq<Line>, e: Edit, first: nat, last: nat, value: string, base: nat,
        start: nat, end: nat)
    requires Canonical(C) && e.start <= e.end <= |Join(C)| && Touched(C, e.start, e.end) == (first, last)
    requires first <= last < |C| && Enclosed(C, first, last)
    requires e.start == Start(C, first) + start && e.end == Start(C, first) + end
    requires Opened(C, first, last, start, end) == Edit(value, base + start, base + end)
    ensures Fenced(C, e.start, e.end) == Edit(value, base + start, base + end)
  {
    FencedAt(C, e.start, e.end, first, last);
  }

  /** Nothing spilled and nothing absorbed: the second call undoes the first exactly. */
  lemma {:induction false} SecondOpens(lines: seq<Line>, first: nat, last: nat, start: nat, end: nat, C: seq<Line>,
        e: Edit, empty: bool)
    requires Spans(lines, first, last, start, end) && !Spills(lines, first, last, end) && !Absorbs(lines, first, last)
    requires C == ClosedLines(lines, first, last) && e == Closed(lines, first, last, start, end)
    requires empty <==> Inner(lines, first, last) == ""
    ensures && Canonical(C) && e.start <= e.end <= |Join(C)|
            && Fenced(C, e.start, e.end)
               == Edit(FilledSource(lines, first, last),
                       Start(lines, first) + (if empty then 0 else start),
                       Start(lines, first) + (if empty then |CODE| else end))
  {
    hide Opened, Closed, ClosedLines, Fenced, Enclosed, Touched, FilledSource, Absorbs, Spills, Inner, Start, Join;
    var s, t := if empty then 0 else start, if empty then |CODE| else end;
    SecondReady(lines, first, last, start, end);
    SecondTouches(lines, first, last, start, end);
    ClosedOpens(lines, first, last, s, t);
    ClosedMoves(lines, first, last, start, end);
    FencedOpens(C, e, first + 1, last + 1, FilledSource(lines, first, last), Start(lines, first), s, t);
  }

  /** The first call's result is a source with a selection in it, split into `ClosedLines`. */
  lemma {:induction false} SecondReady(lines: seq<Line>, first: nat, last: nat, start: nat, end: nat)
    requires Spans(lines, first, last, start, end)
    ensures var C, e := ClosedLines(lines, first, last), Closed(lines, first, last, start, end);
            Canonical(C) && Join(C) == e.value && Split(e.value) == C && e.start <= e.end <= |e.value|
  {
    ClosedLinesAreCanonical(lines, first, last);
    ClosedLinesJoin(lines, first, last, start, end);
    SplitOfJoin(ClosedLines(lines, first, last));
    assert last < |lines| - 1 ==> Terminated(lines[last]);
  }

  /** A fence line is wider than what opening takes from the break before it. */
  lemma {:induction false} OpensShorter(lines: seq<Line>, first: nat, last: nat, start: nat, end: nat)
    requires first <= last < |lines| && Absorbs(lines, first, last)
    ensures var C := ClosedLines(lines, first, last);
            && last + 3 <= |C| && Enclosed(C, first + 1, last + 1)
            && |Opened(C, first + 1, last + 1, start, end).value| < |FilledSource(lines, first, last)|
  {
    hide Marker, ClosedLines, LocalEnding;
    MarkerIsFence(Filled(Inner(lines, first, last)));
    var C, text := ClosedLines(lines, first, last), LastText(lines, first, last);
    ClosedShape(lines, first, last);
    assert |Inner(C, first + 1, last + 1)| + 1 == |Join(lines[first..last])| + |text|;
  }

  /** A second call that does not open only adds to the text. */
  lemma {:induction false} GrowsAgain(lines: seq<Line>, first: nat, last: nat, f: nat, l: nat, start: nat, end: nat)
    requires Canonical(lines) && first <= last < |lines| && f <= l < |lines| + 2 == |ClosedLines(lines, first, last)|
    ensures |Closed(ClosedLines(lines, first, last), f, l, start, end).value| > |FilledSource(lines, first, last)|
  {
    ClosedLinesJoin(lines, first, last, 0, 0);
    ClosedLength(ClosedLines(lines, first, last), f, l, start, end);
  }

  /** A spilled selection touches the closing fence, so opening would need another fence after it. */
  lemma {:induction false} SpilledLength(lines: seq<Line>, first: nat, last: nat, start: nat, end: nat)
    requires Canonical(lines) && first <= last && last + 3 < |lines| + 2
    requires Enclosed(ClosedLines(lines, first, last), first + 1, last + 2)
    ensures |Opened(ClosedLines(lines, first, last), first + 1, last + 2, start, end).value|
            == |FilledSource(lines, first, last)| + |Marker(Filled(Inner(lines, first, last)))|
               + |LocalEnding(lines, first, last)|
               - |lines[last].eol| - |lines[last + 1].text|
  {
    var C := ClosedLines(lines, first, last);
    ClosedShape(lines, first, last);
    assert C[last + 3] == lines[last + 1];
    ClosedLinesJoin(lines, first, last, 0, 0);
    OpenedLength(C, first + 1, last + 2, start, end);
  }

  /** Otherwise the second call returns a text of another length. */
  lemma {:induction false} SecondMisses(lines: seq<Line>, first: nat, last: nat, start: nat, end: nat)
    requires Spans(lines, first, last, start, end) && (Spills(lines, first, last, end) || Absorbs(lines, first, last))
    ensures var C, e := ClosedLines(lines, first, last), Closed(lines, first, last, start, end);
            && Canonical(C) && e.start <= e.end <= |Join(C)|
            && |Fenced(C, e.start, e.end).value| != |FilledSource(lines, first, last)|
  {
    var spills := Spills(lines, first, last, end);
    SpansShape(lines, first, last, start, end);
    hide *;
    var C, e := ClosedLines(lines, first, last), Closed(lines, first, last, start, end);
    SecondReady(lines, first, last, start, end);
    SecondTouches(lines, first, last, start, end);
    var f, l := first + 1, if spills then last + 2 else last + 1;
    FencedAt(C, e.start, e.end, f, l);
    var s, t := e.start - Start(C, f), e.end - Start(C, f);
    ClosedShape(lines, first, last);
    if !Enclosed(C, f, l) {
      GrowsAgain(lines, first, last, f, l, s, t);
    } else if spills {
      SpilledMisses(lines, first, last, s, t);
    } else {
      OpensShorter(lines, first, last, s, t);
    }
  }

  lemma {:induction false} SpilledMisses(lines: seq<Line>, first: nat, last: nat, start: nat, end: nat)
    requires Canonical(lines) && first <= last && last + 1 < |lines|
    requires |lines[last].eol| == 2 && LocalEnding(lines, first, last) == "\n"
    requires Enclosed(ClosedLines(lines, first, last), first + 1, last + 2)
    ensures |Opened(ClosedLines(lines, first, last), first + 1, last + 2, start, end).value|
            < |FilledSource(lines, first, last)|
  {
    hide Opened, FilledSource, LocalEnding, Canonical, Marker, Filled, Inner, ClosedLines, IsFence;
    ClosedShape(lines, first, last);
    assert ClosedLines(lines, first, last)[last + 3] == lines[last + 1];
    SpilledLength(lines, first, last, start, end);
  }

  lemma {:induction false} SpansShape(lines: seq<Line>, first: nat, last: nat, start: nat, end: nat)
    requires Spans(lines, first, last, start, end)
    ensures Canonical(lines) && first <= last < |lines|
    ensures Spills(lines, first, last, end)
            ==> last + 1 < |lines| && |lines[last].eol| == 2 && LocalEnding(lines, first, last) == "\n"
  {
  }

  /**
   The toggle law, for every source (given by its lines) and selection. When the
   first call adds fences, the second call on the returned text and selection
   restores the text (the placeholder standing in for empty content) and the
   selection if and only if closing neither absorbs a carriage return nor spills
   the selection. Neither can happen in a source whose line breaks are alike.
   */
  lemma {:induction false} ToggleRestores(lines: seq<Line>, start: nat, end: nat, first: nat, last: nat, e: Edit,
        empty: bool)
    requires Canonical(lines) && start <= end <= |Join(lines)| && e == Fenced(lines, start, end)
    requires Touched(lines, start, end) == (first, last) && first <= last && !Enclosed(lines, first, last)
    requires empty <==> Inner(lines, first, last) == ""
    ensures !empty ==> FilledSource(lines, first, last) == Join(lines)
    ensures InRange(e) && Canonical(Split(e.value)) && Join(Split(e.value)) == e.value && Start(lines, first) <= start
    ensures var base := Start(lines, first);
            Fenced(Split(e.value), e.start, e.end)
            == Edit(FilledSource(lines, first, last), if empty then base else start,
                    if empty then base + |CODE| else end)
            <==> !Absorbs(lines, first, last) && !Spills(lines, first, last, end - base)
  {
    hide Opened, Closed, ClosedLines, Enclosed, FilledSource, Absorbs, Spills, Inner, Start, Join, Spans, Canonical,
         Split, Touched, Fenced;
    TouchedSpans(lines, start, end, first, last);
    FencedAt(lines, start, end, first, last);
    if !empty {
      FilledSourceIsSource(lines, first, last);
    }
    var base := Start(lines, first);
    SecondReady(lines, first, last, start - base, end - base);
    if !Absorbs(lines, first, last) && !Spills(lines, first, last, end - base) {
      SecondOpens(lines, first, last, start - base, end - base, ClosedLines(lines, first, last), e, empty);
    } else {
      SecondMisses(lines, first, last, start - base, end - base);
    }
  }

  lemma {:induction false} FilledSourceIsSource(lines: seq<Line>, first: nat, last: nat)
    requires first <= last < |lines| && Inner(lines, first, last) != ""
    ensures FilledSource(lines, first, last) == Join(lines)
  {
    JoinAround(lines, first, last);
  }

  /** A source whose breaks are all alike and which has no other carriage return. */
  predicate Uniform(lines: seq<Line>) {
    && (forall i | 0 <= i < |lines| :: '\r' !in lines[i].text)
    && (forall i, j | 0 <= i < j < |lines| - 1 :: lines[i].eol == lines[j].eol)
  }

  lemma {:induction false} EndsInElement(text: string, c: char)
    ensures EndsWith(text, [c]) ==> c in text
  {
    assert text != "" ==> text[|text| - 1..] == [text[|text| - 1]];
  }

  lemma {:induction false} UniformNeverMisses(lines: seq<Line>, first: nat, last: nat, end: nat)
    requires Canonical(lines) && Uniform(lines) && first <= last < |lines|
    ensures !Absorbs(lines, first, last) && !Spills(lines, first, last, end)
  {
    LocalEndingIsBreak(lines, first, last);
    var text := LastText(lines, first, last);
    EndsInElement(text, '\r');
    assert first < last < |lines| - 1 ==> lines[first].eol == lines[last].eol && Terminated(lines[first]);
  }

  /**
   The fence is longer than every backtick run in the content, so (CommonMark section 4.5)
   no content line closes it.
   */
  lemma {:induction false} FenceOutlastsContent(lines: seq<Line>, first: nat, last: nat, m: nat)
    requires first <= last < |lines|
    ensures var content := Filled(Inner(lines, first, last));
            IsFence(Marker(content)) && (m >= |Marker(content)| ==> !HasRun(content, m))
  {
    LongestRunIsLongest(Filled(Inner(lines, first, last)), m);
  }

  /**
   Taking fences away can put the selection's end behind the text: exactly when the
   selection takes more of the last touched line's break than what follows the closing
   fence is long.
   */
  lemma {:induction false} OpenedRangeExactly(lines: seq<Line>, first: nat, last: nat, start: nat, end: nat)
    requires Spans(lines, first, last, start, end) && Enclosed(lines, first, last)
    ensures InRange(Opened(lines, first, last, start, end))
            <==> end <= |Inner(lines, first, last)| || end - |Inner(lines, first, last)| <= |After(lines, last + 1)|
    ensures end <= |Inner(lines, first, last)| + |lines[last].eol|
  {
    hide Canonical, IsFence;
  }
}
