/**
 Quotes and lists: a prefix is put before every touched line, or taken from all of
 them when every one has it. Lines end at line feeds here; a carriage return is text.
 */
module PrefixLines {
  import opened Text
  import opened Separated
  import Decimal

  datatype Kind = Quote | Unordered | Ordered | Task

  const BREAK := '\n'

  function LeadingDigits(s: string): (n: nat)
    ensures n <= |s|
  {
    if s != "" && Decimal.IsNumeral(s[0]) then 1 + LeadingDigits(s[1..]) else 0
  }

  /** How long the prefix of a line is; zero when it has none. */
  function Matched(kind: Kind, line: string): (n: nat)
    ensures n <= |line|
  {
    match kind
    case Quote => if StartsWith(line, "> ") then 2 else 0
    case Unordered => if StartsWith(line, "- ") then 2 else 0
    case Ordered =>
      var d := LeadingDigits(line);
      if d > 0 && StartsWith(line[d..], ". ") then d + 2 else 0
    case Task =>
      if StartsWith(line, "- [ ] ") || StartsWith(line, "- [x] ") || StartsWith(line, "- [X] ") then 6 else 0
  }

  function Prefix(kind: Kind, index: nat): string {
    match kind
    case Quote => "> "
    case Unordered => "- "
    case Ordered => Decimal.Format(index + 1) + ". "
    case Task => "- [ ] "
  }

  predicate AllMatch(kind: Kind, lines: seq<string>) {
    forall i | 0 <= i < |lines| :: Matched(kind, lines[i]) > 0
  }

  /** Where the line holding `position` starts. */
  function LineStart(source: string, position: nat): (lo: nat)
    requires position <= |source|
    ensures lo <= position
  {
    if position == 0 || source[position - 1] == BREAK then position else LineStart(source, position - 1)
  }

  /** A selection that ends behind a break does not touch the next line. */
  function TouchedEnd(source: string, start: nat, end: nat): nat
    requires start <= end <= |source|
  {
    if end > start && source[end - 1] == BREAK then end - 1 else end
  }

  function Span(source: string, start: nat, end: nat): (span: (nat, nat))
    requires start <= end <= |source|
    ensures span.0 <= start && span.0 <= span.1 <= |source| && TouchedEnd(source, start, end) <= span.1
  {
    (LineStart(source, start), IndexOf(source, BREAK, TouchedEnd(source, start, end)))
  }

  /** One replacement at the start of a line. */
  datatype Change = Change(at: nat, remove: nat, insert: string)

  /** Where the k-th line starts, relative to the first. */
  function Offset(lines: seq<string>, k: nat): nat
    requires k <= |lines|
  {
    if k == 0 then 0 else Offset(lines, k - 1) + |lines[k - 1]| + 1
  }

  function ChangeAt(kind: Kind, lines: seq<string>, lo: nat, removing: bool, k: nat): Change
    requires k < |lines|
  {
    Change(lo + Offset(lines, k), if removing then Matched(kind, lines[k]) else 0,
           if removing then "" else Prefix(kind, k))
  }

  function Changes(kind: Kind, lines: seq<string>, lo: nat, removing: bool): (c: seq<Change>)
    ensures |c| == |lines|
  {
    seq(|lines|, k requires 0 <= k < |lines| => ChangeAt(kind, lines, lo, removing, k))
  }

  function Changed(kind: Kind, lines: seq<string>, removing: bool): (n: seq<string>)
    ensures |n| == |lines|
  {
    seq(|lines|, k requires 0 <= k < |lines| =>
      if removing then lines[k][Matched(kind, lines[k])..] else Prefix(kind, k) + lines[k])
  }

  /** A position carried over the changes from the k-th on. */
  function Mapped(changes: seq<Change>, position: nat, k: nat, delta: int): int
    requires k <= |changes|
    decreases |changes| - k
  {
    if k == |changes| || position < changes[k].at then position + delta
    else if position <= changes[k].at + changes[k].remove then changes[k].at + delta + |changes[k].insert|
    else Mapped(changes, position, k + 1, delta + |changes[k].insert| - changes[k].remove)
  }

  datatype Result = Result(value: string, start: int, end: int)

  function Applied(kind: Kind, before: string, lines: seq<string>, after: string, start: nat, end: nat): Result {
    var removing := AllMatch(kind, lines);
    var changes := Changes(kind, lines, |before|, removing);
    Result(before + JoinWith(Changed(kind, lines, removing), BREAK) + after,
           Mapped(changes, start, 0, 0), Mapped(changes, end, 0, 0))
  }

  function Prefixed(kind: Kind, source: string, start: nat, end: nat): Result
    requires start <= end <= |source|
  {
    var (lo, hi) := Span(source, start, end);
    Applied(kind, source[..lo], SplitOn(source[lo..hi], BREAK), source[hi..], start, end)
  }

  // ---- The editor's loops ----

  method MapPosition(changes: seq<Change>, position: nat) returns (r: int)
    ensures r == Mapped(changes, position, 0, 0)
  {
    var delta := 0;
    for k := 0 to |changes|
      invariant Mapped(changes, position, 0, 0) == Mapped(changes, position, k, delta)
    {
      if position < changes[k].at {
        return position + delta;
      }
      if position <= changes[k].at + changes[k].remove {
        return changes[k].at + delta + |changes[k].insert|;
      }
      delta := delta + |changes[k].insert| - changes[k].remove;
    }
    return position + delta;
  }

  method EveryMatch(kind: Kind, lines: seq<string>) returns (all: bool)
    ensures all == AllMatch(kind, lines)
  {
    for i := 0 to |lines|
      invariant forall j | 0 <= j < i :: Matched(kind, lines[j]) > 0
    {
      if Matched(kind, lines[i]) == 0 {
        return false;
      }
    }
    return true;
  }

  method ListChanges(kind: Kind, lines: seq<string>, lo: nat, removing: bool) returns (changes: seq<Change>)
    ensures changes == Changes(kind, lines, lo, removing)
  {
    changes := [];
    var offset := lo;
    for k := 0 to |lines|
      invariant offset == lo + Offset(lines, k)
      invariant changes == Changes(kind, lines, lo, removing)[..k]
    {
      ChangesMore(kind, lines, lo, removing, k);
      hide Changes;
      changes := changes
        + [Change(offset, if removing then Matched(kind, lines[k]) else 0, if removing then "" else Prefix(kind, k))];
      offset := offset + |lines[k]| + 1;
    }
  }

  lemma {:induction false} ChangesMore(kind: Kind, lines: seq<string>, lo: nat, removing: bool, k: nat)
    requires k < |lines|
    ensures Changes(kind, lines, lo, removing)[..k + 1]
            == Changes(kind, lines, lo, removing)[..k] + [ChangeAt(kind, lines, lo, removing, k)]
    ensures Offset(lines, k + 1) == Offset(lines, k) + |lines[k]| + 1
  {
  }

  /** The text of the lines with the changes made, copied piece by piece. */
  method CopyChanged(kind: Kind, source: string, lo: nat, hi: nat, lines: seq<string>, removing: bool)
    returns (changed: string)
    requires lo <= hi <= |source| && lines == SplitOn(source[lo..hi], BREAK)
    ensures changed == JoinWith(Changed(kind, lines, removing), BREAK)
  {
    hide *;
    var changes := ListChanges(kind, lines, lo, removing);
    JoinInvertsSplit(source[lo..hi], BREAK);
    changed := "";
    var copied: nat := lo;
    ghost var news := Changed(kind, lines, removing);
    StartsCopying(source, lo, hi, lines, news);
    for k := 0 to |changes|
      invariant k < |lines| ==> Copying(source, lo + Offset(lines, k), hi, lines, news, changed, copied, k)
      invariant k == |lines| ==> copied <= hi && changed + source[copied..hi] == JoinWith(news, BREAK)
    {
      NewLine(kind, lines, lo, removing, k);
      KeepsCopying(source, lo + Offset(lines, k), hi, lines, news, changed, copied, changes[k], k);
      changed := changed + source[copied..changes[k].at] + changes[k].insert;
      copied := changes[k].at + changes[k].remove;
    }
    changed := changed + source[copied..hi];
  }

  /** What is copied completes the lines before the k-th, and the rest of the source is the lines from it on. */
  ghost predicate Copying(source: string, at: nat, hi: nat, lines: seq<string>, news: seq<string>, changed: string,
        copied: nat, k: nat) {
    && copied <= at <= hi <= |source| && k < |lines| == |news|
    && source[at..hi] == JoinWith(lines[k..], BREAK) && changed + source[copied..at] == Head(news, k)
  }

  lemma {:induction false} StartsCopying(source: string, lo: nat, hi: nat, lines: seq<string>, news: seq<string>)
    requires lo <= hi <= |source| && source[lo..hi] == JoinWith(lines, BREAK) && lines != [] && |news| == |lines|
    ensures lo + Offset(lines, 0) == lo && Copying(source, lo, hi, lines, news, "", lo, 0)
  {
    assert lines[0..] == lines;
  }

  lemma {:induction false} KeepsCopying(source: string, at: nat, hi: nat, lines: seq<string>, news: seq<string>,
        changed: string, copied: nat, c: Change, k: nat)
    requires Copying(source, at, hi, lines, news, changed, copied, k)
    requires c.at == at && c.remove <= |lines[k]| && news[k] == c.insert + lines[k][c.remove..]
    ensures copied <= at <= |source| && at + |lines[k]| <= hi
    ensures k + 1 < |lines| ==>
              Copying(source, at + |lines[k]| + 1, hi, lines, news, changed + source[copied..at] + c.insert,
                      at + c.remove, k + 1)
              && Offset(lines, k + 1) == Offset(lines, k) + |lines[k]| + 1
    ensures k + 1 == |lines| ==>
              at + c.remove <= hi <= |source|
              && changed + source[copied..at] + c.insert + source[at + c.remove..hi] == JoinWith(news, BREAK)
  {
    hide Head, JoinWith, Offset;
    if k + 1 < |lines| {
      CopiesOn(source, at, hi, lines, news[k], changed, copied, c, k, Head(news, k));
      HeadMore(news, k);
    } else {
      LastLine(lines, k);
      HeadAll(news);
      OneLine(source, at, hi, lines[k], "", c.remove, c.insert, Head(news, k));
    }
  }

  lemma {:induction false} CopiesOn(source: string, at: nat, hi: nat, lines: seq<string>, line: string,
        changed: string, copied: nat, c: Change, k: nat, head: string)
    requires copied <= at <= hi <= |source| && k + 1 < |lines| && changed + source[copied..at] == head
    requires source[at..hi] == JoinWith(lines[k..], BREAK) && c.remove <= |lines[k]|
             && line == c.insert + lines[k][c.remove..]
    ensures Offset(lines, k + 1) == Offset(lines, k) + |lines[k]| + 1
    ensures var next := at + |lines[k]| + 1;
            && at + c.remove <= next <= hi && source[next..hi] == JoinWith(lines[k + 1..], BREAK)
            && changed + source[copied..at] + c.insert + source[at + c.remove..next] == head + line + [BREAK]
  {
    hide JoinWith;
    TailOf(lines, k);
    OneLine(source, at, hi, lines[k], [BREAK] + JoinWith(lines[k + 1..], BREAK), c.remove, c.insert, head);
    OneBreak(source, at + c.remove, at + |lines[k]|, hi, JoinWith(lines[k + 1..], BREAK), head + c.insert, head + line);
  }

  lemma {:induction false} LastLine(lines: seq<string>, k: nat)
    requires k + 1 == |lines|
    ensures JoinWith(lines[k..], BREAK) == lines[k] + ""
  {
    assert lines[k..] == [lines[k]] && lines[k] + "" == lines[k];
  }

  lemma {:induction false} TailOf(lines: seq<string>, k: nat)
    requires k + 1 < |lines|
    ensures JoinWith(lines[k..], BREAK) == lines[k] + ([BREAK] + JoinWith(lines[k + 1..], BREAK))
  {
    assert lines[k..][1..] == lines[k + 1..];
    assert lines[k] + [BREAK] + JoinWith(lines[k + 1..], BREAK)
           == lines[k] + ([BREAK] + JoinWith(lines[k + 1..], BREAK));
  }

  /** Putting the change in and copying the rest of the line. */
  lemma {:induction false} OneLine(source: string, at: nat, hi: nat, line: string, tail: string, remove: nat,
        insert: string, head: string)
    requires at <= hi <= |source| && source[at..hi] == line + tail && remove <= |line|
    ensures at + |line| <= hi && source[at + |line|..hi] == tail
    ensures head + insert + source[at + remove..at + |line|] == head + (insert + line[remove..])
  {
    var s := source[at..hi];
    assert |s| == hi - at;
    SubSlice(source, at, hi, |line|, |s|);
    SubSlice(source, at, hi, remove, |line|);
    assert s[|line|..] == tail && s[remove..|line|] == line[remove..];
    assert head + insert + line[remove..] == head + (insert + line[remove..]);
  }

  lemma {:induction false} SubSlice(s: string, at: nat, to: nat, a: nat, b: nat)
    requires at <= to <= |s| && a <= b <= to - at
    ensures s[at..to][a..b] == s[at + a..at + b]
  {
    var x, y := s[at..to][a..b], s[at + a..at + b];
    assert |x| == |y| && forall k | 0 <= k < |x| :: x[k] == s[at + a + k] && y[k] == s[at + a + k];
  }

  lemma {:induction false} OneBreak(source: string, copied: nat, at: nat, hi: nat, rest: string, changed: string,
        done: string)
    requires copied <= at <= hi <= |source| && source[at..hi] == [BREAK] + rest && changed + source[copied..at] == done
    ensures at + 1 <= hi && source[at + 1..hi] == rest && changed + source[copied..at + 1] == done + [BREAK]
  {
    var s := source[at..hi];
    assert |s| == hi - at && s[0] == BREAK && s[1..] == rest;
    assert source[at + 1..hi] == s[1..];
    assert source[at] == s[0];
    assert source[copied..at + 1] == source[copied..at] + [BREAK];
    assert changed + (source[copied..at] + [BREAK]) == (changed + source[copied..at]) + [BREAK];
  }

  lemma {:induction false} NewLine(kind: Kind, lines: seq<string>, lo: nat, removing: bool, k: nat)
    requires k < |lines|
    ensures var c, news := Changes(kind, lines, lo, removing)[k], Changed(kind, lines, removing);
            c.at == lo + Offset(lines, k) && c.remove <= |lines[k]| && news[k] == c.insert + lines[k][c.remove..]
  {
  }

  method PrefixTouched(kind: Kind, source: string, start: nat, end: nat) returns (r: Result)
    requires start <= end <= |source|
    ensures r == Prefixed(kind, source, start, end)
  {
    hide JoinWith, SplitOn, LineStart, Mapped, Changes, Changed, AllMatch, IndexOf;
    var lo := LineStart(source, start);
    var touchedEnd := if end > start && source[end - 1] == BREAK then end - 1 else end;
    var hi := IndexOf(source, BREAK, touchedEnd);
    var lines := SplitOn(source[lo..hi], BREAK);
    var removing := EveryMatch(kind, lines);
    var changes := ListChanges(kind, lines, lo, removing);
    var changed := CopyChanged(kind, source, lo, hi, lines, removing);
    var newStart := MapPosition(changes, start);
    var newEnd := MapPosition(changes, end);
    return Result(source[..lo] + changed + source[hi..], newStart, newEnd);
  }

  /** The first k lines, each with its break. */
  function Head(lines: seq<string>, k: nat): string
    requires k <= |lines|
  {
    if k == 0 then "" else Head(lines, k - 1) + lines[k - 1] + [BREAK]
  }

  lemma {:induction false} HeadMore(lines: seq<string>, k: nat)
    requires k < |lines|
    ensures Head(lines, k + 1) == Head(lines, k) + lines[k] + [BREAK]
  {
  }

  lemma {:induction false} HeadShift(lines: seq<string>, k: nat)
    requires k < |lines|
    ensures Head(lines, k + 1) == lines[0] + [BREAK] + Head(lines[1..], k)
  {
    if k == 0 {
      assert Head(lines, 1) == "" + lines[0] + [BREAK];
      assert lines[0] + [BREAK] + "" == lines[0] + [BREAK];
    } else {
      HeadShift(lines, k - 1);
      assert (lines[0] + [BREAK] + Head(lines[1..], k - 1)) + lines[k] + [BREAK]
          == lines[0] + [BREAK] + (Head(lines[1..], k - 1) + lines[k] + [BREAK]);
    }
  }

  lemma {:induction false} HeadAll(lines: seq<string>)
    requires lines != []
    ensures JoinWith(lines, BREAK) == Head(lines, |lines| - 1) + lines[|lines| - 1]
  {
    if |lines| == 1 {
      assert "" + lines[0] == lines[0];
    } else {
      HeadAll(lines[1..]);
      HeadShift(lines, |lines| - 2);
      assert lines[0] + [BREAK] + (Head(lines[1..], |lines| - 2) + lines[|lines| - 1])
          == (lines[0] + [BREAK] + Head(lines[1..], |lines| - 2)) + lines[|lines| - 1];
    }
  }

  lemma {:induction false} HeadLength(lines: seq<string>, k: nat)
    requires k <= |lines|
    ensures |Head(lines, k)| == Offset(lines, k)
  {
    if k > 0 {
      HeadLength(lines, k - 1);
    }
  }


  // ---- The touched lines ----

  /** A text cut into what precedes the touched lines, those lines, and what follows them. */
  ghost predicate Shape(before: string, lines: seq<string>, after: string) {
    && lines != [] && Clean(lines, BREAK)
    && (before == "" || before[|before| - 1] == BREAK) && (after == "" || after[0] == BREAK)
  }

  /** A selection starts `s` into the first touched line and ends `q` into the last, whose break it may include. */
  predicate Selects(lines: seq<string>, after: string, s: nat, q: nat)
    requires lines != []
  {
    var m := |lines| - 1;
    && s <= |lines[0]| && q <= |lines[m]| + 1 && (q == |lines[m]| + 1 ==> after != "")
    && (if m == 0 then s <= q else q > 0)
  }

  lemma {:induction false} LineStartBounds(source: string, position: nat)
    requires position <= |source|
    ensures var lo := LineStart(source, position);
            && (lo == 0 || source[lo - 1] == BREAK) && forall i | lo <= i < position :: source[i] != BREAK
  {
    if position > 0 && source[position - 1] != BREAK {
      LineStartBounds(source, position - 1);
    }
  }

  lemma {:induction false} LineStartIs(source: string, position: nat, lo: nat)
    requires lo <= position <= |source| && (lo == 0 || source[lo - 1] == BREAK)
    requires forall i | lo <= i < position :: source[i] != BREAK
    ensures LineStart(source, position) == lo
    decreases position
  {
    if position > lo {
      assert source[position - 1] != BREAK;
      LineStartIs(source, position - 1, lo);
    }
  }

  lemma {:induction false} IndexIs(source: string, from: nat, hi: nat)
    requires from <= hi <= |source| && (hi == |source| || source[hi] == BREAK)
    requires forall i | from <= i < hi :: source[i] != BREAK
    ensures IndexOf(source, BREAK, from) == hi
  {
  }

  /** The last line lies at the end of a join, behind the offset of the others. */
  lemma {:induction false} LastOfJoin(lines: seq<string>)
    requires lines != []
    ensures var joined, at := JoinWith(lines, BREAK), Offset(lines, |lines| - 1);
            && |joined| == at + |lines[|lines| - 1]| && joined[at..] == lines[|lines| - 1]
            && (|lines| > 1 ==> at > 0 && joined[at - 1] == BREAK)
  {
    HeadAll(lines);
    HeadLength(lines, |lines| - 1);
  }

  lemma {:induction false} FirstOfJoin(lines: seq<string>)
    requires lines != []
    ensures var joined := JoinWith(lines, BREAK);
            && |joined| >= |lines[0]| && joined[..|lines[0]|] == lines[0]
            && (|lines| > 1
                ==> |joined| > |lines[0]| && joined[|lines[0]|] == BREAK && Offset(lines, 1) == |lines[0]| + 1)
  {
    if |lines| > 1 {
      var rest := JoinWith(lines[1..], BREAK);
      assert JoinWith(lines, BREAK) == lines[0] + [BREAK] + rest;
      assert Offset(lines, 1) == Offset(lines, 0) + |lines[0]| + 1;
    }
  }

  lemma {:induction false} OffsetMonotone(lines: seq<string>, i: nat, j: nat)
    requires i < j <= |lines|
    ensures Offset(lines, i) + |lines[i]| < Offset(lines, j)
    decreases j
  {
    if i < j - 1 {
      OffsetMonotone(lines, i, j - 1);
    }
  }

  /** Breaks around a span place a selection in its first and last lines. */
  lemma {:induction false} SelectsCut(source: string, start: nat, end: nat, lo: nat, hi: nat, n: nat, first: nat,
        last: nat, at: nat)
    requires start <= end <= |source| && lo <= start && TouchedEnd(source, start, end) <= hi <= |source|
    requires forall i | lo <= i < start :: source[i] != BREAK
    requires forall i | TouchedEnd(source, start, end) <= i < hi :: source[i] != BREAK
    requires hi == lo + at + last && lo + first <= hi
    requires n > 1 ==> first < at && source[lo + first] == BREAK && source[lo + at - 1] == BREAK
    requires n == 1 ==> at == 0 && first == last
    requires n >= 1
    ensures lo + at <= end && start - lo <= first && end - lo - at <= last + 1
    ensures end - lo - at == last + 1 ==> hi < |source|
    ensures if n == 1 then start - lo <= end - lo - at else end - lo - at > 0
  {
  }

  /** What the editor touches: the shape of the text and the selection in it. */
  lemma {:induction false} SpanShape(source: string, start: nat, end: nat, lo: nat, hi: nat, lines: seq<string>,
        at: nat)
    requires start <= end <= |source| && Span(source, start, end) == (lo, hi) && lines == SplitOn(source[lo..hi], BREAK)
    requires at == Offset(lines, |lines| - 1)
    ensures Shape(source[..lo], lines, source[hi..]) && JoinWith(lines, BREAK) == source[lo..hi]
    ensures lo <= start && lo + at <= end && Selects(lines, source[hi..], start - lo, end - lo - at)
  {
    hide SplitOn, JoinWith, LineStart, Offset, Shape, Selects;
    LineStartBounds(source, start);
    JoinInvertsSplit(source[lo..hi], BREAK);
    ShapeHolds(source, lo, hi, lines);
    SelectsHolds(source, start, end, lo, hi, lines, at);
  }

  lemma {:induction false} ShapeHolds(source: string, lo: nat, hi: nat, lines: seq<string>)
    requires lo <= hi <= |source| && lines != [] && Clean(lines, BREAK)
    requires (lo == 0 || source[lo - 1] == BREAK) && (hi == |source| || source[hi] == BREAK)
    ensures Shape(source[..lo], lines, source[hi..])
  {
  }

  lemma {:induction false} SelectsHolds(source: string, start: nat, end: nat, lo: nat, hi: nat, lines: seq<string>,
        at: nat)
    requires start <= end <= |source| && lo <= start && TouchedEnd(source, start, end) <= hi <= |source|
    requires forall i | lo <= i < start :: source[i] != BREAK
    requires forall i | TouchedEnd(source, start, end) <= i < hi :: source[i] != BREAK
    requires lines != [] && source[lo..hi] == JoinWith(lines, BREAK) && at == Offset(lines, |lines| - 1)
    ensures lo + at <= end && Selects(lines, source[hi..], start - lo, end - lo - at)
  {
    hide JoinWith, Offset;
    FirstOfJoin(lines);
    LastOfJoin(lines);
    FirstBeforeLast(lines);
    assert |lines| > 1
           ==> source[lo + |lines[0]|] == source[lo..hi][|lines[0]|] && source[lo + at - 1] == source[lo..hi][at - 1];
    SelectsCut(source, start, end, lo, hi, |lines|, |lines[0]|, |lines[|lines| - 1]|, at);
  }

  lemma {:induction false} FirstBeforeLast(lines: seq<string>)
    requires lines != []
    ensures if |lines| == 1 then Offset(lines, |lines| - 1) == 0 else |lines[0]| < Offset(lines, |lines| - 1)
  {
    if |lines| > 1 {
      OffsetMonotone(lines, 0, |lines| - 1);
    }
  }

  /** Breaks around a selection decide its span. */
  lemma {:induction false} SpanIs(source: string, start: nat, end: nat, lo: nat, hi: nat, first: nat, at: nat)
    requires lo <= start <= end <= |source| && lo + first <= hi <= |source| && lo + at <= hi
    requires (lo == 0 || source[lo - 1] == BREAK) && (hi == |source| || source[hi] == BREAK)
    requires forall i | lo <= i < lo + first :: source[i] != BREAK
    requires forall i | lo + at <= i < hi :: source[i] != BREAK
    requires start <= lo + first && lo + at <= end <= hi + 1
    requires end > start ==> at == 0 || end > lo + at
    requires end == start ==> at == 0 && end <= hi
    ensures Span(source, start, end) == (lo, hi)
  {
    LineStartIs(source, start, lo);
    IndexIs(source, TouchedEnd(source, start, end), hi);
  }

  /** The breaks in a text of that shape. */
  lemma {:induction false} ShapeBreaks(before: string, lines: seq<string>, after: string, at: nat, source: string,
        joined: string)
    requires Shape(before, lines, after) && source == before + joined + after
    requires |joined| >= |lines[0]| && joined[..|lines[0]|] == lines[0]
    requires |joined| == at + |lines[|lines| - 1]| && joined[at..] == lines[|lines| - 1]
    ensures var lo, hi := |before|, |before| + |joined|;
            && (lo == 0 || source[lo - 1] == BREAK) && (hi == |source| || source[hi] == BREAK)
            && (forall i | lo <= i < lo + |lines[0]| :: source[i] != BREAK)
            && (forall i | lo + at <= i < hi :: source[i] != BREAK)
  {
    var lo, hi, m := |before|, |before| + |joined|, |lines| - 1;
    assert forall i | lo <= i < hi :: source[i] == joined[i - lo];
    forall i | lo <= i < lo + |lines[0]|
      ensures source[i] != BREAK
    {
      assert joined[i - lo] == joined[..|lines[0]|][i - lo] == lines[0][i - lo];
    }
    forall i | lo + at <= i < hi
      ensures source[i] != BREAK
    {
      assert joined[i - lo] == joined[at..][i - lo - at] == lines[m][i - lo - at];
    }
  }

  /** A text of that shape, with that selection, is touched in exactly those lines. */
  lemma {:induction false} ShapeSpan(before: string, lines: seq<string>, after: string, s: nat, q: nat, at: nat,
        source: string)
    requires Shape(before, lines, after) && Selects(lines, after, s, q) && at == Offset(lines, |lines| - 1)
    requires source == before + JoinWith(lines, BREAK) + after
    ensures var start, end, hi := |before| + s, |before| + at + q, |before| + |JoinWith(lines, BREAK)|;
            && start <= end <= |source| && Span(source, start, end) == (|before|, hi)
            && source[..|before|] == before && source[|before|..hi] == JoinWith(lines, BREAK) && source[hi..] == after
            && SplitOn(source[|before|..hi], BREAK) == lines
  {
    hide SplitOn, JoinWith, Offset, LineStart, Span, TouchedEnd;
    var joined := JoinWith(lines, BREAK);
    FirstOfJoin(lines);
    LastOfJoin(lines);
    FirstBeforeLast(lines);
    SplitInvertsJoin(lines, BREAK);
    Seams(before, joined, after);
    ShapeBreaks(before, lines, after, at, source, joined);
    hide Shape;
    SpanIs(source, |before| + s, |before| + at + q, |before|, |before| + |joined|, |lines[0]|, at);
  }

  // ---- Where positions go ----

  function Gain(changes: seq<Change>, k: nat): int
    requires k <= |changes|
    decreases |changes| - k
  {
    if k == |changes| then 0 else |changes[k].insert| - changes[k].remove + Gain(changes, k + 1)
  }

  lemma {:induction false} MapsPast(changes: seq<Change>, position: nat, k: nat, delta: int)
    requires k <= |changes| && forall j | k <= j < |changes| :: changes[j].at + changes[j].remove < position
    ensures Mapped(changes, position, k, delta) == position + delta + Gain(changes, k)
    decreases |changes| - k
  {
    if k < |changes| {
      MapsPast(changes, position, k + 1, delta + |changes[k].insert| - changes[k].remove);
    }
  }

  lemma {:induction false} MapsFirst(changes: seq<Change>, position: nat)
    requires changes != [] && changes[0].at <= position && (|changes| > 1 ==> position < changes[1].at)
    ensures Mapped(changes, position, 0, 0)
            == if position <= changes[0].at + changes[0].remove then changes[0].at + |changes[0].insert|
               else position + |changes[0].insert| - changes[0].remove
  {
    if position > changes[0].at + changes[0].remove {
      assert Mapped(changes, position, 0, 0) == Mapped(changes, position, 1, |changes[0].insert| - changes[0].remove);
    }
  }

  lemma {:induction false} GainIsGrowth(kind: Kind, lines: seq<string>, lo: nat, removing: bool, k: nat)
    requires k <= |lines|
    ensures var n, news := |lines|, Changed(kind, lines, removing);
            Gain(Changes(kind, lines, lo, removing), k)
              == Offset(news, n) - Offset(news, k) - (Offset(lines, n) - Offset(lines, k))
    decreases |lines| - k
  {
    hide Changes, Changed, Matched, Prefix, Offset;
    if k < |lines| {
      GainIsGrowth(kind, lines, lo, removing, k + 1);
      NewLine(kind, lines, lo, removing, k);
      OffsetNext(lines, k);
      OffsetNext(Changed(kind, lines, removing), k);
    }
  }

  lemma {:induction false} OffsetNext(lines: seq<string>, k: nat)
    requires k < |lines|
    ensures Offset(lines, k + 1) == Offset(lines, k) + |lines[k]| + 1
  {
  }

  /** The start moves with the first line. */
  lemma {:induction false} StartMoves(kind: Kind, lines: seq<string>, lo: nat, removing: bool, position: nat)
    requires lines != [] && lo <= position <= lo + |lines[0]|
    ensures var c := ChangeAt(kind, lines, lo, removing, 0);
            Mapped(Changes(kind, lines, lo, removing), position, 0, 0)
            == if position <= lo + c.remove then lo + |c.insert| else position + |c.insert| - c.remove
  {
    var changes := Changes(kind, lines, lo, removing);
    assert Offset(lines, 0) == 0;
    if |lines| > 1 {
      assert Offset(lines, 1) == |lines[0]| + 1;
      assert changes[1].at == lo + Offset(lines, 1);
    }
    MapsFirst(changes, position);
  }

  /** A position in the last line, past its change, moves with that line. */
  lemma {:induction false} EndMoves(kind: Kind, lines: seq<string>, lo: nat, removing: bool, q: nat)
    requires lines != []
    requires var m := |lines| - 1; q > ChangeAt(kind, lines, lo, removing, m).remove
    ensures var m := |lines| - 1; var c := ChangeAt(kind, lines, lo, removing, m);
            Mapped(Changes(kind, lines, lo, removing), lo + Offset(lines, m) + q, 0, 0)
            == lo + Offset(Changed(kind, lines, removing), m) + q + |c.insert| - c.remove
  {
    var changes, m, news := Changes(kind, lines, lo, removing), |lines| - 1, Changed(kind, lines, removing);
    var position := lo + Offset(lines, m) + q;
    forall j | 0 <= j < |changes|
      ensures changes[j].at + changes[j].remove < position
    {
      if j < m {
        OffsetMonotone(lines, j, m);
        NewLine(kind, lines, lo, removing, j);
      }
    }
    GainIsGrowth(kind, lines, lo, removing, 0);
    NewLine(kind, lines, lo, removing, m);
    assert Offset(lines, 0) == 0 && Offset(news, 0) == 0;
    hide Changes, Changed, Mapped, Matched, Prefix;
    MapsPast(changes, position, 0, 0);
  }

  // ---- The toggle ----

  lemma {:induction false} DigitsLead(digits: string, rest: string)
    requires forall i | 0 <= i < |digits| :: Decimal.IsNumeral(digits[i])
    requires rest != "" && !Decimal.IsNumeral(rest[0])
    ensures LeadingDigits(digits + rest) == |digits|
  {
    if digits == "" {
      assert "" + rest == rest;
    } else {
      DigitsLead(digits[1..], rest);
      assert (digits + rest)[1..] == digits[1..] + rest;
    }
  }

  /** A line behind a prefix has exactly that prefix. */
  lemma {:induction false} PrefixMatches(kind: Kind, index: nat, line: string)
    ensures var p := Prefix(kind, index);
            p != "" && BREAK !in p && Matched(kind, p + line) == |p| && (p + line)[|p|..] == line
  {
    var p := Prefix(kind, index);
    assert (p + line)[..|p|] == p;
    if kind == Ordered {
      var digits := Decimal.Format(index + 1);
      assert p + line == digits + (". " + line);
      DigitsLead(digits, ". " + line);
      assert (p + line)[|digits|..] == ". " + line;
      assert (". " + line)[..2] == ". ";
      assert forall i | 0 <= i < |digits| :: Decimal.IsNumeral(digits[i]);
    }
  }

  /** The lines with their prefixes: all match, and taking the prefixes off gives the lines back. */
  lemma {:induction false} AddedMatch(kind: Kind, lines: seq<string>)
    requires Clean(lines, BREAK) && lines != []
    ensures var news := Changed(kind, lines, false);
            && AllMatch(kind, news) && Clean(news, BREAK) && Changed(kind, news, true) == lines
            && forall k | 0 <= k < |lines| ::
                 Matched(kind, news[k]) == |Prefix(kind, k)| && news[k] == Prefix(kind, k) + lines[k]
  {
    var news := Changed(kind, lines, false);
    forall k | 0 <= k < |lines|
      ensures Matched(kind, news[k]) == |Prefix(kind, k)| > 0 && BREAK !in news[k]
              && Changed(kind, news, true)[k] == lines[k]
    {
      PrefixMatches(kind, k, lines[k]);
    }
  }

  /** What the second call takes from a line is what the first one put there. */
  lemma {:induction false} AddedChange(kind: Kind, lines: seq<string>, lo: nat, k: nat)
    requires k < |lines|
    ensures var c := ChangeAt(kind, Changed(kind, lines, false), lo, true, k);
            c.remove == |Prefix(kind, k)| && c.insert == ""
  {
    PrefixMatches(kind, k, lines[k]);
  }

  lemma {:induction false} Adds(kind: Kind, before: string, lines: seq<string>, after: string, s: nat, q: nat, at: nat)
    requires lines != [] && Selects(lines, after, s, q) && !AllMatch(kind, lines) && at == Offset(lines, |lines| - 1)
    ensures var news, m := Changed(kind, lines, false), |lines| - 1;
            Applied(kind, before, lines, after, |before| + s, |before| + at + q)
            == Result(before + JoinWith(news, BREAK) + after, |before| + |Prefix(kind, 0)| + s,
                      |before| + Offset(news, m) + |Prefix(kind, m)| + q)
  {
    hide AllMatch, Matched, Prefix, JoinWith;
    assert Offset(lines, 0) == 0 && Offset(Changed(kind, lines, false), 0) == 0;
    StartMoves(kind, lines, |before|, false, |before| + s);
    if q > 0 {
      EndMoves(kind, lines, |before|, false, q);
    } else {
      StartMoves(kind, lines, |before|, false, |before|);
    }
  }

  lemma {:induction false} StartMovesBack(kind: Kind, lines: seq<string>, lo: nat, s: nat)
    requires lines != [] && Clean(lines, BREAK) && s <= |lines[0]|
    ensures Mapped(Changes(kind, Changed(kind, lines, false), lo, true), lo + |Prefix(kind, 0)| + s, 0, 0) == lo + s
  {
    var news := Changed(kind, lines, false);
    assert |news[0]| == |Prefix(kind, 0)| + |lines[0]|;
    AddedChange(kind, lines, lo, 0);
    hide Changed, Changes, ChangeAt, Mapped, Prefix, Matched;
    StartMoves(kind, news, lo, true, lo + |Prefix(kind, 0)| + s);
  }

  lemma {:induction false} EndMovesBack(kind: Kind, lines: seq<string>, lo: nat, q: nat)
    requires lines != [] && Clean(lines, BREAK) && (|lines| > 1 ==> q > 0)
    ensures var news, m := Changed(kind, lines, false), |lines| - 1;
            Mapped(Changes(kind, news, lo, true), lo + Offset(news, m) + |Prefix(kind, m)| + q, 0, 0)
              == lo + Offset(lines, m) + q
  {
    hide Changed, Changes, ChangeAt, Mapped, Prefix, Matched, AllMatch, Clean, Offset;
    var news, m := Changed(kind, lines, false), |lines| - 1;
    if q > 0 {
      AddedMatch(kind, lines);
      AddedChange(kind, lines, lo, m);
      EndMoves(kind, news, lo, true, |Prefix(kind, m)| + q);
    } else {
      NoOffset(news);
      NoOffset(lines);
      StartMovesBack(kind, lines, lo, 0);
    }
  }

  lemma {:induction false} NoOffset(lines: seq<string>)
    ensures Offset(lines, 0) == 0
  {
  }

  lemma {:induction false} Removes(kind: Kind, before: string, lines: seq<string>, after: string, s: nat, q: nat)
    requires lines != [] && Clean(lines, BREAK) && Selects(lines, after, s, q)
    ensures var news, m := Changed(kind, lines, false), |lines| - 1;
            Applied(kind, before, news, after, |before| + (|Prefix(kind, 0)| + s),
                    |before| + Offset(news, m) + (|Prefix(kind, m)| + q))
            == Result(before + JoinWith(lines, BREAK) + after, |before| + s, |before| + Offset(lines, m) + q)
  {
    hide AllMatch, Matched, Prefix, JoinWith, Changed, Changes, Mapped, Offset;
    AddedMatch(kind, lines);
    StartMovesBack(kind, lines, |before|, s);
    EndMovesBack(kind, lines, |before|, q);
  }

  /** The action on a text of known shape. */
  lemma {:induction false} PrefixedIs(kind: Kind, before: string, lines: seq<string>, after: string, s: nat, q: nat,
        at: nat, source: string)
    requires Shape(before, lines, after) && Selects(lines, after, s, q) && at == Offset(lines, |lines| - 1)
    requires source == before + JoinWith(lines, BREAK) + after
    ensures |before| + s <= |before| + at + q <= |source|
    ensures Prefixed(kind, source, |before| + s, |before| + at + q)
            == Applied(kind, before, lines, after, |before| + s, |before| + at + q)
  {
    hide Applied, Offset, Span, SplitOn, Selects, Shape, JoinWith;
    ShapeSpan(before, lines, after, s, q, at, source);
  }

  /** With their prefixes the lines keep their shape, and the moved selection is one in them. */
  lemma {:induction false} AddedShape(kind: Kind, before: string, lines: seq<string>, after: string, s: nat, q: nat)
    requires Shape(before, lines, after) && Selects(lines, after, s, q)
    ensures var news, m := Changed(kind, lines, false), |lines| - 1;
            Shape(before, news, after) && Selects(news, after, |Prefix(kind, 0)| + s, |Prefix(kind, m)| + q)
  {
    hide Changed, Matched, Prefix, AllMatch, Clean;
    AddedMatch(kind, lines);
  }

  /** The text and the selection after prefixes were added. */
  function Added(kind: Kind, before: string, lines: seq<string>, after: string, s: nat, q: nat): Result
    requires lines != []
  {
    var news, m := Changed(kind, lines, false), |lines| - 1;
    Result(before + JoinWith(news, BREAK) + after, |before| + (|Prefix(kind, 0)| + s),
           |before| + Offset(news, m) + (|Prefix(kind, m)| + q))
  }

  lemma {:induction false} FirstAdds(kind: Kind, before: string, lines: seq<string>, after: string, s: nat, q: nat,
        at: nat, source: string)
    requires Shape(before, lines, after) && Selects(lines, after, s, q) && at == Offset(lines, |lines| - 1)
             && !AllMatch(kind, lines)
    requires source == before + JoinWith(lines, BREAK) + after
    ensures |before| + s <= |before| + at + q <= |source|
    ensures Prefixed(kind, source, |before| + s, |before| + at + q) == Added(kind, before, lines, after, s, q)
  {
    hide Prefixed, Applied, Offset, JoinWith, Changed, AllMatch, Prefix;
    PrefixedIs(kind, before, lines, after, s, q, at, source);
    Adds(kind, before, lines, after, s, q, at);
  }

  lemma {:induction false} SecondRemoves(kind: Kind, before: string, lines: seq<string>, after: string, s: nat,
        q: nat, at: nat, source: string)
    requires Shape(before, lines, after) && Selects(lines, after, s, q) && at == Offset(lines, |lines| - 1)
    requires source == before + JoinWith(lines, BREAK) + after
    ensures var r := Added(kind, before, lines, after, s, q);
            && 0 <= r.start <= r.end <= |r.value|
            && Prefixed(kind, r.value, r.start, r.end) == Result(source, |before| + s, |before| + at + q)
  {
    hide Prefixed, Applied, Offset, JoinWith, Changed, Prefix;
    var news, m := Changed(kind, lines, false), |lines| - 1;
    AddedShape(kind, before, lines, after, s, q);
    PrefixedIs(kind, before, news, after, |Prefix(kind, 0)| + s, |Prefix(kind, m)| + q, Offset(news, m),
               before + JoinWith(news, BREAK) + after);
    Removes(kind, before, lines, after, s, q);
  }

  /**
   The toggle law, for every text, selection and kind: when the first call adds
   prefixes, the second call on what it returned restores the text and both ends of the
   selection.
   */
  lemma {:induction false} ToggleRestores(kind: Kind, source: string, start: nat, end: nat)
    requires start <= end <= |source|
    requires var (lo, hi) := Span(source, start, end); !AllMatch(kind, SplitOn(source[lo..hi], BREAK))
    ensures var r := Prefixed(kind, source, start, end);
            && 0 <= r.start <= r.end <= |r.value|
            && Prefixed(kind, r.value, r.start, r.end) == Result(source, start, end)
  {
    hide *;
    var (lo, hi) := Span(source, start, end);
    var lines := SplitOn(source[lo..hi], BREAK);
    var at := Offset(lines, |lines| - 1);
    SpanShape(source, start, end, lo, hi, lines, at);
    assert source == source[..lo] + source[lo..hi] + source[hi..];
    var before, after, s, q := source[..lo], source[hi..], start - lo, end - lo - at;
    FirstAdds(kind, before, lines, after, s, q, at, source);
    SecondRemoves(kind, before, lines, after, s, q, at, source);
  }
}
