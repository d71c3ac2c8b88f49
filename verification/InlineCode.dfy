/**
 Inline code: wrapping a selection in a backtick delimiter longer than any
 backtick run in it. The delimiter is padded with spaces unless the selection
 is itself blank, and backtick runs beside it are escaped.
 */
module InlineCode {
  import opened Text

  const PLACEHOLDER := "code"

  /** The units `String.prototype.trim` removes. */
  predicate IsSpace(c: char) {
    || '\t' <= c <= '\r' || c == ' ' || c == '\U{A0}' || c == '\U{1680}' || '\U{2000}' <= c <= '\U{200A}'
    || c in {'\U{2028}', '\U{2029}', '\U{202F}', '\U{205F}', '\U{3000}', '\U{FEFF}'}
  }

  /** A non-empty selection that trims to nothing. */
  predicate Blank(selected: string) {
    selected != "" && forall i | 0 <= i < |selected| :: IsSpace(selected[i])
  }

  /** The length of the longest backtick run in `s`. */
  function LongestRun(s: string): nat {
    if s == "" then 0
    else
      var init, last := LongestRun(s[..|s| - 1]), TrailingRun(s, '`');
      if last > init then last else init
  }

  predicate RunAt(s: string, i: nat, n: nat) {
    i + n <= |s| && s[i..i + n] == Repeat('`', n)
  }

  ghost predicate HasRun(s: string, n: nat) {
    exists i :: RunAt(s, i, n)
  }

  method MaximumBacktickRun(value: string) returns (maximum: nat)
    ensures maximum == LongestRun(value)
  {
    maximum := 0;
    var current := 0;
    for i := 0 to |value|
      invariant maximum == LongestRun(value[..i]) && current == TrailingRun(value[..i], '`')
    {
      assert value[..i + 1][..i] == value[..i];
      if value[i] == '`' {
        current := current + 1;
        maximum := if current > maximum then current else maximum;
      } else {
        current := 0;
      }
    }
    assert value[..|value|] == value;
  }

  /** `LongestRun` is attained, and nothing longer occurs. */
  lemma {:induction false} LongestRunIsLongest(s: string, n: nat)
    ensures HasRun(s, LongestRun(s))
    ensures HasRun(s, n) ==> n <= LongestRun(s)
  {
    if s == "" {
      assert RunAt(s, 0, 0);
    } else {
      var init := s[..|s| - 1];
      LongestRunIsLongest(init, n);
      EndsInRun(s);
      KeepsRun(s, LongestRun(init));
      hide HasRun, TrailingRun;
      if HasRun(s, n) {
        RunLocated(s, n);
      }
    }
  }

  lemma {:induction false} EndsInRun(s: string)
    ensures HasRun(s, TrailingRun(s, '`'))
  {
    TrailingRunSplit(s, '`');
    var last := TrailingRun(s, '`');
    assert RunAt(s, |s| - last, last);
  }

  /** A run of what precedes the last unit is one of the text. */
  lemma {:induction false} KeepsRun(s: string, n: nat)
    requires s != "" && HasRun(s[..|s| - 1], n)
    ensures HasRun(s, n)
  {
    var init := s[..|s| - 1];
    var j: nat :| RunAt(init, j, n);
    assert init[j..j + n] == s[j..j + n];
    assert RunAt(s, j, n);
  }

  /** A run either ends the text or lies in what precedes the last unit. */
  lemma {:induction false} RunLocated(s: string, n: nat)
    requires s != "" && HasRun(s, n)
    ensures HasRun(s[..|s| - 1], n) || n <= TrailingRun(s, '`')
  {
    var i: nat :| RunAt(s, i, n);
    if i + n < |s| {
      assert s[..|s| - 1][i..i + n] == s[i..i + n];
      assert RunAt(s[..|s| - 1], i, n);
    } else {
      TrailingRunReaches(s, n);
    }
  }

  lemma {:induction false} TrailingRunReaches(s: string, n: nat)
    requires n <= |s| && s[|s| - n..] == Repeat('`', n)
    ensures TrailingRun(s, '`') >= n
  {
    if n > 0 {
      assert s[|s| - 1] == s[|s| - n..][n - 1];
      assert s[..|s| - 1][|s| - n..] == s[|s| - n..][..n - 1];
      TrailingRunReaches(s[..|s| - 1], n - 1);
    }
  }

  function Content(selected: string): string {
    if selected == "" then PLACEHOLDER else selected
  }

  function Padding(selected: string): string {
    if Blank(selected) then "" else " "
  }

  function Opening(content: string): string {
    Repeat('`', LongestRun(content) + 1) + Padding(content)
  }

  function Closing(content: string): string {
    Padding(content) + Repeat('`', LongestRun(content) + 1)
  }

  /** The one unit of `source` at `i`, or nothing where JavaScript reads `undefined`. */
  function At(source: string, i: int): string {
    if 0 <= i < |source| then [source[i]] else ""
  }

  /** A bare backtick beside a delimiter would make its run longer. */
  predicate LengthenedBy(left: string, right: string) {
    || (At(left, |left| - 1) == "`" && TrailingPairs(left, '`') == 0)
    || At(right, 0) == "`"
  }

  /** The text outside an opening and a closing delimiter. */
  function Outside(before: string, after: string, opening: string, closing: string): (string, string)
    requires |opening| <= |before| && |closing| <= |after|
  {
    (before[..|before| - |opening|], after[|closing|..])
  }

  predicate Between(before: string, after: string, opening: string, closing: string) {
    && EndsWith(before, opening) && StartsWith(after, closing)
    && var (left, right) := Outside(before, after, opening, closing);
       !LengthenedBy(left, right)
  }

  /** The selection stands between exactly its own delimiters, which no further backtick lengthens. */
  predicate Unwraps(before: string, selected: string, after: string) {
    Between(before, after, Opening(selected), Closing(selected))
  }

  function Wrapped(before: string, selected: string, after: string): Edit {
    var content := Content(selected);
    var left := EscapeTail(before, '`') + Opening(content);
    var right := Closing(content) + EscapeHead(after, '`');
    Edit(left + content + right, |left|, |left| + |content|)
  }

  function Code(before: string, selected: string, after: string): Edit {
    if Unwraps(before, selected, after) then
      var (left, right) := Outside(before, after, Opening(selected), Closing(selected));
      Unescaped(left, selected, right, '`')
    else
      Wrapped(before, selected, after)
  }

  /** The cursor code's tests that the delimiters, padding included, are there. */
  predicate OpeningPresent(source: string, start: nat, marker: string, pad: string) {
    && |marker| + |pad| <= start <= |source|
    && Slice(source, start - |pad| - |marker|, start - |pad|) == marker
    && Slice(source, start - |pad|, start) == pad
  }

  predicate ClosingPresent(source: string, end: nat, marker: string, pad: string) {
    && Slice(source, end, end + |pad|) == pad
    && Slice(source, end + |pad|, end + |pad| + |marker|) == marker
  }

  method UnwrapInlineCode(source: string, start: nat, end: nat, padded: bool) returns (unwrapped: bool, r: Edit)
    requires start <= end <= |source| && padded == !Blank(source[start..end])
    ensures unwrapped <==> Unwraps(source[..start], source[start..end], source[end..])
    ensures unwrapped ==> r == Code(source[..start], source[start..end], source[end..])
  {
    var selected := source[start..end];
    var longest := MaximumBacktickRun(selected);
    var marker, padding := Repeat('`', longest + 1), if padded then " " else "";
    unwrapped, r := UnwrapBetween(source, start, end, marker, padding);
  }

  /** Finds both delimiters around the selection and removes them, unless a bare backtick lengthens one. */
  method UnwrapBetween(source: string, start: nat, end: nat, marker: string, padding: string)
    returns (unwrapped: bool, r: Edit)
    requires start <= end <= |source| && marker != ""
    ensures var before, after := source[..start], source[end..];
            && (unwrapped <==> Between(before, after, marker + padding, padding + marker))
            && (unwrapped ==>
                var (left, right) := Outside(before, after, marker + padding, padding + marker);
                r == Unescaped(left, source[start..end], right, '`'))
  {
    OpeningBySlices(source, start, marker, padding);
    ClosingBySlices(source, end, marker, padding);
    if !OpeningPresent(source, start, marker, padding) || !ClosingPresent(source, end, marker, padding) {
      return false, Edit("", 0, 0);
    }
    var leftMarkerStart, rightMarkerEnd := start - |padding| - |marker|, end + |padding| + |marker|;
    CutInside(source, start, end, leftMarkerStart, rightMarkerEnd);
    unwrapped, r := RestoreAround(source, leftMarkerStart, rightMarkerEnd, source[start..end]);
  }

  lemma {:induction false} CutInside(source: string, start: nat, end: nat, lo: nat, hi: nat)
    requires lo <= start <= end <= hi <= |source|
    ensures source[..lo] == source[..start][..lo] && source[hi..] == source[end..][hi - end..]
  {
  }

  /** Both markers found: declines when a bare backtick lengthens either, else unescapes around the selection. */
  method RestoreAround(source: string, leftMarkerStart: nat, rightMarkerEnd: nat, selected: string)
    returns (unwrapped: bool, r: Edit)
    requires leftMarkerStart <= |source| && rightMarkerEnd <= |source|
    ensures var left, right := source[..leftMarkerStart], source[rightMarkerEnd..];
            && (unwrapped <==> !LengthenedBy(left, right))
            && (unwrapped ==> r == Unescaped(left, selected, right, '`'))
  {
    ghost var left, right := source[..leftMarkerStart], source[rightMarkerEnd..];
    var leftStart, leftCount := EscapedRunBefore(source, leftMarkerStart, '`');
    var rightEnd, rightCount := EscapedRunAfter(source, rightMarkerEnd, '`');
    if (At(source, leftMarkerStart - 1) == "`" && leftCount == 0) || At(source, rightMarkerEnd) == "`" {
      return false, Edit("", 0, 0);
    }
    var replacement := Repeat('`', leftCount) + selected + Repeat('`', rightCount);
    assert source[..leftStart] == left[..leftStart];
    assert source[rightEnd..] == right[2 * rightCount..];
    return true, Edit(source[..leftStart] + replacement + source[rightEnd..],
                      leftStart + leftCount, leftStart + leftCount + |selected|);
  }

  /** The slice tests say that the text before the selection ends in the opening delimiter. */
  lemma {:induction false} OpeningBySlices(source: string, start: nat, marker: string, pad: string)
    requires start <= |source|
    ensures EndsWith(source[..start], marker + pad) <==> OpeningPresent(source, start, marker, pad)
  {
    EndsWithBoth(source[..start], marker, pad);
    if |marker| + |pad| <= start {
      var before, p := source[..start], start - |pad|;
      assert before[p - |marker|..p] == source[p - |marker|..p];
      assert before[p..] == source[p..start];
    }
  }

  lemma {:induction false} ClosingBySlices(source: string, end: nat, marker: string, pad: string)
    requires end <= |source| && marker != ""
    ensures StartsWith(source[end..], pad + marker) <==> ClosingPresent(source, end, marker, pad)
    ensures ClosingPresent(source, end, marker, pad) ==> end + |pad| + |marker| <= |source|
  {
    var after, p := source[end..], end + |pad|;
    StartsWithBoth(after, pad, marker);
    SliceLength(source, p, p + |marker|);
    if p + |marker| <= |source| {
      assert after[|pad|..|pad| + |marker|] == source[p..p + |marker|];
      assert after[..|pad|] == source[end..p];
    }
  }

  method InlineCode(source: string, start: nat, end: nat) returns (r: Edit)
    requires start <= end <= |source|
    ensures r == Code(source[..start], source[start..end], source[end..])
  {
    var selected := source[start..end];
    var blank := Blank(selected);
    var unwrapped, edit := UnwrapInlineCode(source, start, end, !blank);
    if unwrapped {
      return edit;
    }
    r := AddAround(source, start, end);
  }

  /** Wraps the selection or the placeholder, escaping the backtick runs beside it. */
  method AddAround(source: string, start: nat, end: nat) returns (r: Edit)
    requires start <= end <= |source|
    ensures r == Wrapped(source[..start], source[start..end], source[end..])
  {
    hide LongestRun, EscapeTail, EscapeHead, Content, Padding;
    var content := Content(source[start..end]);
    var longest := MaximumBacktickRun(content);
    var marker := Repeat('`', longest + 1);
    var padding := Padding(content);
    var left, right := EscapeAround(source, start, end, '`');
    r := Edit(left + (marker + padding) + content + (padding + marker + right),
              |left| + |marker| + |padding|, |left| + |marker| + |padding| + |content|);
  }

  /** The action applied to an edit's text and selection. */
  function Again(e: Edit): Edit
    requires InRange(e)
  {
    Code(e.value[..e.start], e.value[e.start..e.end], e.value[e.end..])
  }

  /**
   The toggle law, for every text and selection. When the first call wraps, the
   second gives back the text and the selection (the placeholder standing in for
   an empty one) if and only if the author wrote no escaped backtick right after
   the backtick run that follows the selection.
   */
  lemma {:induction false} ToggleRestores(before: string, selected: string, after: string)
    requires !Unwraps(before, selected, after)
    ensures var first := Code(before, selected, after);
            var content := Content(selected);
            && InRange(first)
            && first.value[first.start..first.end] == content
            && (Again(first) == Edit(before + content + after, |before|, |before| + |content|)
                <==> !StartsWith(after[LeadingRun(after, '`')..], "\\`"))
  {
    var first, content := Code(before, selected, after), Content(selected);
    var left := EscapeTail(before, '`') + Opening(content);
    var right := Closing(content) + EscapeHead(after, '`');
    Seams(left, content, right);
    assert Again(first) == Code(left, content, right);
    SecondCall(before, content, after);
  }

  lemma {:induction false} SecondCall(before: string, content: string, after: string)
    ensures Code(EscapeTail(before, '`') + Opening(content), content, Closing(content) + EscapeHead(after, '`'))
            == Edit(before + content + after, |before|, |before| + |content|)
            <==> !StartsWith(after[LeadingRun(after, '`')..], "\\`")
  {
    var L, R := EscapeTail(before, '`'), EscapeHead(after, '`');
    var opening, closing := Opening(content), Closing(content);
    DropPrefix(closing, R);
    assert (L + opening)[..|L|] == L;
    assert Outside(L + opening, closing + R, opening, closing) == (L, R);
    ContextsClosed(before, after);
    assert Unwraps(L + opening, content, closing + R);
    UnescapeInvertsEscape(before, content, after, '`');
    EscapeAtEdge(before, after[LeadingRun(after, '`')..], '`');
  }

  lemma {:induction false} HeadClosed(after: string)
    ensures var R := EscapeHead(after, '`'); R == "" || R[0] != '`'
  {
    var b := LeadingRun(after, '`');
    LeadingRunSplit(after, '`');
    if b == 0 {
      assert Escaped('`', b) + after[b..] == after;
    }
  }

  /** No bare backtick touches a new delimiter from outside. */
  lemma {:induction false} ContextsClosed(before: string, after: string)
    ensures var L, R := EscapeTail(before, '`'), EscapeHead(after, '`');
            && !LengthenedBy(L, R)
            && (R == "" || R[0] != '`')
  {
    hide EscapeHead;
    var a := TrailingRun(before, '`');
    HeadClosed(after);
    TrailingRunSplit(before, '`');
    if a > 0 {
      EscapedAtEnd('`', a - 1);
    } else {
      assert before[..|before| - a] + Escaped('`', a) == before;
    }
  }

  /**
   The delimiter is sound as CommonMark section 6.1 reads it: the run that opens
   the span and the run that closes it are exactly as long as the delimiter, and
   no run of that length or longer lies between them.
   */
  lemma {:induction false} DelimiterMatchesOnlyItsPair(before: string, selected: string, after: string)
    ensures var content := Content(selected);
            var n := LongestRun(content) + 1;
            var e := Wrapped(before, selected, after);
            && LeadingRun(e.value[e.start - |Opening(content)|..], '`') == n
            && LeadingRun(e.value[e.end + |Padding(content)|..], '`') == n
            && forall m | m >= n :: !HasRun(content, m)
  {
    var content := Content(selected);
    var left, right := EscapeTail(before, '`'), EscapeHead(after, '`');
    OpeningRunExact(left, content, Closing(content) + right);
    ContextsClosed(before, after);
    ClosingRunExact((left + Opening(content)) + content, content, right);
    forall m | m >= LongestRun(content) + 1
      ensures !HasRun(content, m)
    {
      LongestRunIsLongest(content, m);
    }
  }

  lemma {:induction false} OpeningRunExact(left: string, content: string, rest: string)
    requires content != ""
    ensures LeadingRun(((left + Opening(content)) + content + rest)[|left|..], '`') == LongestRun(content) + 1
  {
    var n, pad := LongestRun(content) + 1, Padding(content);
    var body := pad + content + rest;
    assert (left + Opening(content)) + content + rest == left + (Repeat('`', n) + body);
    DropPrefix(left, Repeat('`', n) + body);
    assert body[0] != '`' by {
      assert Blank(content) ==> IsSpace(content[0]);
      assert body[0] == if pad == "" then content[0] else ' ';
    }
    LeadingRunOfRepeat('`', n, body);
  }

  lemma {:induction false} ClosingRunExact(left: string, content: string, right: string)
    requires right == "" || right[0] != '`'
    ensures LeadingRun((left + (Closing(content) + right))[|left| + |Padding(content)|..], '`')
            == LongestRun(content) + 1
  {
    var n, pad := LongestRun(content) + 1, Padding(content);
    assert left + (Closing(content) + right) == (left + pad) + (Repeat('`', n) + right);
    DropPrefix(left + pad, Repeat('`', n) + right);
    LeadingRunOfRepeat('`', n, right);
  }

  lemma {:induction false} LeadingRunOfRepeat(c: char, n: nat, rest: string)
    requires rest == "" || rest[0] != c
    ensures LeadingRun(Repeat(c, n) + rest, c) == n
  {
    if n == 0 {
      assert Repeat(c, n) + rest == rest;
    } else {
      LeadingRunOfRepeat(c, n - 1, rest);
      assert (Repeat(c, n) + rest)[1..] == Repeat(c, n - 1) + rest;
    }
  }
}
