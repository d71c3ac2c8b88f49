/**
 Physical lines of a source, LF or CRLF, and the lines a selection touches.

 `Split` is the line list without positions and `Join` its inverse; a position
 is the length of what comes before it. `SourceLines` is the scanning loop, which
 also records where each line starts, where its text ends, and where the next
 line starts.
 */
module Lines {
  import opened Text

  datatype Line = Line(text: string, eol: string)

  datatype SourceLine = SourceLine(start: nat, end: nat, next: nat, text: string, eol: string)

  function Whole(line: Line): string {
    line.text + line.eol
  }

  function Join(lines: seq<Line>): string {
    if lines == [] then "" else Whole(lines[0]) + Join(lines[1..])
  }

  /** The line ended by the break at `newline`: a carriage return before the break belongs to it. */
  function Ended(s: string, newline: nat): Line
    requires newline < |s|
  {
    if newline > 0 && s[newline - 1] == '\r' then Line(s[..newline - 1], "\r\n") else Line(s[..newline], "\n")
  }

  function Split(s: string): (lines: seq<Line>)
    ensures lines != []
  {
    var newline := IndexOf(s, '\n', 0);
    if newline == |s| then [Line(s, "")] else [Ended(s, newline)] + Split(s[newline + 1..])
  }

  /** A line as a break would end it: the break is visible, and nothing of it is left in the text. */
  predicate Terminated(line: Line) {
    && '\n' !in line.text
    && (line.eol == "\r\n" || (line.eol == "\n" && !EndsWith(line.text, "\r")))
  }

  /** What `Split` produces: terminated lines and then one, possibly empty, without a break. */
  predicate Canonical(lines: seq<Line>) {
    && lines != []
    && (forall i | 0 <= i < |lines| - 1 :: Terminated(lines[i]))
    && lines[|lines| - 1].eol == "" && '\n' !in lines[|lines| - 1].text
  }

  lemma {:induction false} SplitIsCanonical(s: string)
    ensures Canonical(Split(s)) && Join(Split(s)) == s
    decreases |s|
  {
    var newline := IndexOf(s, '\n', 0);
    if newline == |s| {
      OneLine(s);
    } else {
      hide Canonical, Join, Terminated, Ended, Whole;
      var first, rest := Ended(s, newline), Split(s[newline + 1..]);
      SplitIsCanonical(s[newline + 1..]);
      EndedIsTerminated(s, newline);
      CanonicalMore(first, rest);
      assert s == s[..newline + 1] + s[newline + 1..];
    }
  }

  lemma {:induction false} OneLine(s: string)
    requires '\n' !in s
    ensures Canonical([Line(s, "")]) && Join([Line(s, "")]) == s
  {
  }

  lemma {:induction false} EndedIsTerminated(s: string, newline: nat)
    requires newline < |s| && s[newline] == '\n' && '\n' !in s[..newline]
    ensures Terminated(Ended(s, newline)) && Whole(Ended(s, newline)) == s[..newline + 1]
  {
    var line := Ended(s, newline);
    assert forall j | 0 <= j < |line.text| :: line.text[j] == s[..newline][j];
    if newline > 0 && s[newline - 1] != '\r' {
      assert line.text[|line.text| - 1..][0] == s[newline - 1];
    }
  }

  lemma {:induction false} CanonicalMore(first: Line, rest: seq<Line>)
    requires Terminated(first) && Canonical(rest)
    ensures Canonical([first] + rest) && Join([first] + rest) == Whole(first) + Join(rest)
  {
    var lines := [first] + rest;
    assert lines[1..] == rest;
    forall i | 0 <= i < |lines| - 1
      ensures Terminated(lines[i])
    {
      assert i > 0 ==> lines[i] == rest[i - 1];
    }
  }

  /** Only one canonical line list joins to a given source. */
  lemma {:induction false} SplitOfJoin(lines: seq<Line>)
    requires Canonical(lines)
    ensures Split(Join(lines)) == lines
  {
    var s := Join(lines);
    if |lines| == 1 {
      assert s == lines[0].text;
      assert lines == [Line(s, "")];
    } else {
      var first, rest := lines[0], lines[1..];
      assert Terminated(lines[0]);
      assert Canonical(rest);
      SplitOfJoin(rest);
      BreakFound(first, Join(rest));
      assert lines == [first] + rest;
    }
  }

  lemma {:induction false} BreakFound(line: Line, rest: string)
    requires Terminated(line)
    ensures var s := Whole(line) + rest; var newline := |Whole(line)| - 1;
            IndexOf(s, '\n', 0) == newline && Ended(s, newline) == line && s[newline + 1..] == rest
  {
    var s, newline := Whole(line) + rest, |Whole(line)| - 1;
    assert s[newline] == '\n';
    assert forall j | 0 <= j < newline :: s[j] != '\n';
    assert s[newline + 1..] == rest;
    if line.eol == "\n" {
      assert s[..newline] == line.text;
      assert newline > 0 ==> line.text[newline - 1..] == [s[newline - 1]];
    } else {
      assert s[..newline - 1] == line.text;
    }
  }

  lemma {:induction false} JoinAppend(a: seq<Line>, b: seq<Line>)
    ensures Join(a + b) == Join(a) + Join(b)
  {
    hide Whole;
    if a == [] {
      assert a + b == b;
    } else {
      JoinAppend(a[1..], b);
      assert (a + b)[1..] == a[1..] + b;
      ThreeParts(Whole(a[0]), Join(a[1..]), Join(b));
    }
  }

  lemma {:induction false} ThreeParts(a: string, b: string, c: string)
    ensures a + (b + c) == (a + b) + c
  {
  }

  /** Where line `i` starts. */
  function Start(lines: seq<Line>, i: nat): nat
    requires i <= |lines|
  {
    |Join(lines[..i])|
  }

  /** A line with its positions when it starts at `start`. */
  function Placed(start: nat, line: Line): SourceLine {
    SourceLine(start, start + |line.text|, start + |Whole(line)|, line.text, line.eol)
  }

  /** Line `i` with its positions in the joined source. */
  function Located(lines: seq<Line>, i: nat): SourceLine
    requires i < |lines|
  {
    Placed(Start(lines, i), lines[i])
  }

  lemma {:induction false} StartNext(lines: seq<Line>, i: nat)
    requires i < |lines|
    ensures Start(lines, i + 1) == Start(lines, i) + |Whole(lines[i])|
  {
    assert lines[..i + 1] == lines[..i] + [lines[i]];
    JoinAppend(lines[..i], [lines[i]]);
    assert Join([lines[i]]) == Whole(lines[i]) + Join([]);
  }

  /** The records of `located` are those of `lines`. */
  ghost predicate Locates(located: seq<SourceLine>, lines: seq<Line>) {
    |located| == |lines| && forall i | 0 <= i < |lines| :: located[i] == Located(lines, i)
  }

  lemma {:induction false} LocatesOneMore(located: seq<SourceLine>, lines: seq<Line>, line: Line)
    requires Locates(located, lines)
    ensures Locates(located + [Placed(|Join(lines)|, line)], lines + [line])
    ensures |Join(lines + [line])| == |Join(lines)| + |Whole(line)|
  {
    var more := lines + [line];
    forall i | 0 <= i <= |lines|
      ensures more[..i] == lines[..i]
    {
    }
    assert lines[..|lines|] == lines;
    JoinAppend(lines, [line]);
    assert Join([line]) == Whole(line) + Join([]);
  }

  /** The line from `start` that the break at `newline` ends. */
  function LineFrom(source: string, start: nat, newline: nat): (line: Line)
    requires start <= newline < |source|
    ensures |Whole(line)| == newline + 1 - start
  {
    var hasCR := newline > start && source[newline - 1] == '\r';
    var end := if hasCR then newline - 1 else newline;
    Line(source[start..end], if hasCR then "\r\n" else "\n")
  }

  method SourceLines(source: string) returns (lines: seq<SourceLine>)
    ensures Locates(lines, Split(source))
  {
    lines := [];
    var start := 0;
    ghost var done: seq<Line> := [];
    assert source[0..] == source;
    while start <= |source|
      invariant start <= |source| && |Join(done)| == start
      invariant Split(source) == done + Split(source[start..])
      invariant Locates(lines, done)
      decreases |source| - start
    {
      var newline := IndexOf(source, '\n', start);
      SplitFrom(source, start);
      if newline == |source| {
        LocatesOneMore(lines, done, Line(source[start..], ""));
        lines := lines + [Placed(start, Line(source[start..], ""))];
        return;
      }
      var line := LineFrom(source, start, newline);
      LocatesOneMore(lines, done, line);
      lines := lines + [Placed(start, line)];
      Reassociate(done, line, Split(source[newline + 1..]));
      done := done + [line];
      start := newline + 1;
      if start == |source| {
        SplitFrom(source, start);
        LocatesOneMore(lines, done, Line("", ""));
        lines := lines + [Placed(start, Line("", ""))];
        return;
      }
    }
  }

  lemma {:induction false} Reassociate<T>(a: seq<T>, x: T, b: seq<T>)
    ensures a + ([x] + b) == (a + [x]) + b
  {
  }

  /** The loop's step is one unfolding of `Split` on what is left. */
  lemma {:induction false} SplitFrom(source: string, start: nat)
    requires start <= |source|
    ensures var newline := IndexOf(source, '\n', start);
            Split(source[start..]) == if newline == |source| then [Line(source[start..], "")]
                                      else [LineFrom(source, start, newline)] + Split(source[newline + 1..])
  {
    hide IndexOf, Ended, LineFrom;
    var rest, newline := source[start..], IndexOf(source, '\n', start);
    IndexOfSuffix(source, '\n', start);
    if newline < |source| {
      assert rest[newline - start + 1..] == source[newline + 1..];
      EndedSuffix(source, start, newline);
    }
  }

  lemma {:induction false} EndedSuffix(source: string, start: nat, newline: nat)
    requires start <= newline < |source|
    ensures Ended(source[start..], newline - start) == LineFrom(source, start, newline)
  {
    var rest, n := source[start..], newline - start;
    assert rest[..n] == source[start..newline];
    if n > 0 {
      assert rest[n - 1] == source[newline - 1];
      assert rest[..n - 1] == source[start..newline - 1];
    }
  }

  lemma {:induction false} IndexOfSuffix(s: string, c: char, from: nat)
    requires from <= |s|
    ensures IndexOf(s, c, from) == from + IndexOf(s[from..], c, 0)
  {
  }

  /** The line holding `position`: a break belongs to the line it ends, and the last line takes the rest. */
  function IndexAt(lines: seq<Line>, position: nat): (i: nat)
    requires lines != []
    ensures i < |lines|
  {
    if |lines| == 1 || position < |Whole(lines[0])| then 0
    else 1 + IndexAt(lines[1..], position - |Whole(lines[0])|)
  }

  method LineIndexAt(located: seq<SourceLine>, position: nat, ghost lines: seq<Line>) returns (index: nat)
    requires Canonical(lines) && Locates(located, lines)
    ensures index == IndexAt(lines, position)
  {
    for i := 0 to |located|
      invariant i < |located| ==> Start(lines, i) <= position
      invariant i < |located| ==> IndexAt(lines, position) == i + IndexAt(lines[i..], position - Start(lines, i))
      invariant i == |located| ==> IndexAt(lines, position) == |lines| - 1
    {
      StartNext(lines, i);
      assert i < |lines| - 1 ==> Terminated(lines[i]) && lines[i..][1..] == lines[i + 1..];
      if position < located[i].next || (position == located[i].next && located[i].next == located[i].end) {
        return i;
      }
    }
    return |located| - 1;
  }

  /** The last position a selection touches: none of it is past its end. */
  function LastPosition(start: nat, end: nat): nat {
    if end > start then end - 1 else end
  }

  /** The first and the last line a selection touches; a selection's end touches the line before it. */
  function Touched(lines: seq<Line>, start: nat, end: nat): (range: (nat, nat))
    requires lines != []
    ensures range.0 < |lines| && range.1 < |lines|
  {
    (IndexAt(lines, start), IndexAt(lines, LastPosition(start, end)))
  }

  method TouchedLineRange(source: string, start: nat, end: nat)
    returns (located: seq<SourceLine>, first: nat, last: nat)
    requires start <= end <= |source|
    ensures Locates(located, Split(source)) && (first, last) == Touched(Split(source), start, end)
  {
    SplitIsCanonical(source);
    located := SourceLines(source);
    first := LineIndexAt(located, start, Split(source));
    var lastPosition := if end > start then end - 1 else end;
    last := LineIndexAt(located, lastPosition, Split(source));
  }

  /** The first break among lines `first` to `last`, or none. */
  function FirstEnding(lines: seq<Line>, first: nat, last: nat): string
    requires last < |lines|
    decreases last + 1 - first
  {
    if first > last then ""
      else if lines[first].eol != "" then lines[first].eol else FirstEnding(lines, first + 1, last)
  }

  /** The break an edit of these lines uses: their own, else the one before them, else LF. */
  function LocalEnding(lines: seq<Line>, first: nat, last: nat): string
    requires first <= last < |lines|
  {
    var own := FirstEnding(lines, first, last);
    if own != "" then own
    else if first > 0 && lines[first - 1].eol != "" then lines[first - 1].eol
    else "\n"
  }

  method LocalLineEnding(located: seq<SourceLine>, first: nat, last: nat, ghost lines: seq<Line>) returns (eol: string)
    requires Locates(located, lines) && first <= last < |lines|
    ensures eol == LocalEnding(lines, first, last)
  {
    for i := first to last + 1
      invariant FirstEnding(lines, first, last) == FirstEnding(lines, i, last)
    {
      if located[i].eol != "" {
        return located[i].eol;
      }
    }
    if first > 0 && located[first - 1].eol != "" {
      return located[first - 1].eol;
    }
    return "\n";
  }

  /** The line at a position starts at or before it and, unless it is the last, ends after it. */
  lemma {:induction false} IndexAtBounds(lines: seq<Line>, position: nat)
    requires lines != []
    ensures var i := IndexAt(lines, position);
            Start(lines, i) <= position && (i < |lines| - 1 ==> position < Start(lines, i + 1))
  {
    var i := IndexAt(lines, position);
    if i == 0 {
      StartNext(lines, 0);
    } else {
      IndexAtBounds(lines[1..], position - |Whole(lines[0])|);
      StartTail(lines, i);
      if i < |lines| - 1 {
        StartTail(lines, i + 1);
      }
    }
  }

  lemma {:induction false} StartTail(lines: seq<Line>, i: nat)
    requires 0 < i <= |lines|
    ensures Start(lines, i) == |Whole(lines[0])| + Start(lines[1..], i - 1)
  {
    assert lines[..i] == [lines[0]] + lines[1..][..i - 1];
  }

  /** Those bounds identify the line. */
  lemma {:induction false} IndexAtUnique(lines: seq<Line>, position: nat, i: nat)
    requires i < |lines| && Start(lines, i) <= position
    requires i < |lines| - 1 ==> position < Start(lines, i + 1)
    ensures IndexAt(lines, position) == i
  {
    if i == 0 {
      if |lines| > 1 {
        StartNext(lines, 0);
      }
    } else {
      StartTail(lines, i);
      if i < |lines| - 1 {
        StartTail(lines, i + 1);
      }
      IndexAtUnique(lines[1..], position - |Whole(lines[0])|, i - 1);
    }
  }

  lemma {:induction false} StartMonotone(lines: seq<Line>, i: nat, j: nat)
    requires i <= j <= |lines|
    ensures Start(lines, i) <= Start(lines, j)
    decreases j - i
  {
    if i < j {
      StartNext(lines, i);
      StartMonotone(lines, i + 1, j);
    }
  }

  lemma {:induction false} LastEnds(lines: seq<Line>)
    requires lines != []
    ensures |Join(lines)| == Start(lines, |lines| - 1) + |Whole(lines[|lines| - 1])|
  {
    StartNext(lines, |lines| - 1);
    assert lines[..|lines|] == lines;
  }

  /** A position inside the source lies within the line that holds it. */
  lemma {:induction false} WithinLine(lines: seq<Line>, position: nat)
    requires Canonical(lines) && position <= |Join(lines)|
    ensures var i := IndexAt(lines, position); var offset := position - Start(lines, i);
            0 <= offset <= |Whole(lines[i])| && (lines[i].eol != "" ==> offset < |Whole(lines[i])|)
  {
    var i := IndexAt(lines, position);
    IndexAtBounds(lines, position);
    if i < |lines| - 1 {
      StartNext(lines, i);
    } else {
      LastEnds(lines);
    }
  }

  lemma {:induction false} IndexAtMonotone(lines: seq<Line>, p: nat, q: nat)
    requires lines != [] && p <= q
    ensures IndexAt(lines, p) <= IndexAt(lines, q)
  {
    if |lines| > 1 && p >= |Whole(lines[0])| {
      IndexAtMonotone(lines[1..], p - |Whole(lines[0])|, q - |Whole(lines[0])|);
    }
  }

  /** The lines a selection touches are in order and contain both its ends. */
  lemma {:induction false} TouchedBounds(lines: seq<Line>, start: nat, end: nat)
    requires Canonical(lines) && start <= end <= |Join(lines)|
    ensures var (first, last) := Touched(lines, start, end);
            var p, q := start - Start(lines, first), end - Start(lines, last);
            && first <= last
            && 0 <= p <= |Whole(lines[first])| && (lines[first].eol != "" ==> p < |Whole(lines[first])|)
            && 0 <= q <= |Whole(lines[last])| && (end > start ==> q > 0)
            && (end == start ==> first == last)
  {
    hide Join, Start, IndexAt;
    var lastPosition := LastPosition(start, end);
    WithinLine(lines, start);
    WithinLine(lines, lastPosition);
    LastEnds(lines);
    IndexAtMonotone(lines, start, lastPosition);
  }

  predicate AllTerminated(lines: seq<Line>) {
    forall i | 0 <= i < |lines| :: Terminated(lines[i])
  }

  lemma {:induction false} CanonicalAppend(a: seq<Line>, b: seq<Line>)
    requires AllTerminated(a) && Canonical(b)
    ensures Canonical(a + b)
  {
    forall i | 0 <= i < |a + b| - 1
      ensures Terminated((a + b)[i])
    {
      assert i >= |a| ==> (a + b)[i] == b[i - |a|];
    }
  }

  lemma {:induction false} CanonicalParts(lines: seq<Line>, i: nat)
    requires Canonical(lines) && i < |lines|
    ensures AllTerminated(lines[..i]) && Canonical(lines[i..])
  {
  }

  /** The line a scan reads back when a text is followed by a break: LF takes a carriage return before it along. */
  function Reread(text: string, eol: string): Line {
    if eol == "\n" && EndsWith(text, "\r") then Line(text[..|text| - 1], "\r\n") else Line(text, eol)
  }

  lemma {:induction false} RereadTerminates(text: string, eol: string)
    requires '\n' !in text && eol in {"\n", "\r\n"}
    ensures Terminated(Reread(text, eol)) && Whole(Reread(text, eol)) == text + eol
  {
    if eol == "\n" && EndsWith(text, "\r") {
      assert text == text[..|text| - 1] + "\r";
    }
  }

  lemma {:induction false} LocalEndingIsBreak(lines: seq<Line>, first: nat, last: nat)
    requires Canonical(lines) && first <= last < |lines|
    ensures LocalEnding(lines, first, last) in {"\n", "\r\n"}
    ensures lines[first].eol != "" ==> LocalEnding(lines, first, last) == lines[first].eol
  {
    assert first < |lines| - 1 ==> Terminated(lines[first]);
    assert first > 0 ==> Terminated(lines[first - 1]);
    assert first == |lines| - 1 ==> FirstEnding(lines, first, last) == FirstEnding(lines, first + 1, last);
  }

  // ---- Texts around a range of lines ----

  /** The touched lines without the last one's break. */
  function Inner(lines: seq<Line>, first: nat, last: nat): string
    requires first <= last < |lines|
  {
    Join(lines[first..last]) + lines[last].text
  }

  function Before(lines: seq<Line>, first: nat): string
    requires first <= |lines|
  {
    Join(lines[..first])
  }

  /** What follows line `last`'s text, its own break first. */
  function After(lines: seq<Line>, last: nat): string
    requires last < |lines|
  {
    lines[last].eol + Join(lines[last + 1..])
  }

  lemma {:induction false} JoinSpan(lines: seq<Line>, first: nat, last: nat)
    requires first <= last <= |lines|
    ensures Join(lines[..last]) == Join(lines[..first]) + Join(lines[first..last])
  {
    assert lines[..last] == lines[..first] + lines[first..last];
    JoinAppend(lines[..first], lines[first..last]);
  }

  lemma {:induction false} JoinCut(lines: seq<Line>, i: nat)
    requires i < |lines|
    ensures Join(lines) == Join(lines[..i]) + (Whole(lines[i]) + Join(lines[i + 1..]))
  {
    assert lines == lines[..i] + lines[i..];
    JoinAppend(lines[..i], lines[i..]);
    assert lines[i..][1..] == lines[i + 1..];
  }

  lemma {:induction false} JoinAround(lines: seq<Line>, first: nat, last: nat)
    requires first <= last < |lines|
    ensures Join(lines) == Before(lines, first) + Inner(lines, first, last) + After(lines, last)
  {
    JoinCut(lines, last);
    JoinSpan(lines, first, last);
    RegroupLine(Join(lines[..first]), Join(lines[first..last]), lines[last].text, lines[last].eol,
                Join(lines[last + 1..]));
  }

  lemma {:induction false} RegroupLine(a: string, b: string, text: string, eol: string, c: string)
    ensures (a + b) + ((text + eol) + c) == a + (b + text) + (eol + c)
  {
  }

  /** The editor's slices at line positions are the corresponding joins of lines. */
  lemma {:induction false} SlicesAround(lines: seq<Line>, first: nat, last: nat)
    requires first <= last < |lines|
    ensures var s := Join(lines); var lo, hi := Located(lines, first).start, Located(lines, last).end;
            && lo <= hi <= |s|
            && s[..lo] == Before(lines, first)
            && s[lo..hi] == Inner(lines, first, last)
            && s[hi..] == After(lines, last)
  {
    JoinAround(lines, first, last);
    Seams(Before(lines, first), Inner(lines, first, last), After(lines, last));
    JoinSpan(lines, first, last);
  }

  lemma {:induction false} JoinWithLast(lines: seq<Line>, line: Line)
    ensures Join(lines + [line]) == Join(lines) + Whole(line)
  {
    JoinAppend(lines, [line]);
    assert Join([line]) == Whole(line) + Join([]);
  }

  lemma {:induction false} StartSpan(lines: seq<Line>, first: nat, last: nat)
    requires first <= last <= |lines|
    ensures Start(lines, last) == Start(lines, first) + |Join(lines[first..last])|
  {
    JoinSpan(lines, first, last);
  }
}
