/**
 Bold and italic: wrapping a selection in runs of one or two stars.

 `Wrapped`, `Unescaped`, `UnwrappedOutside` and `UnwrappedInside` are the four
 things a call can return; `Stars` picks one from the text before the selection,
 the selection, and the text after it. `WrapStars` is the cursor code itself.
 */
module Stars {
  import opened Text

  const PLACEHOLDER := "text"

  /** A run of this many stars can lose `width` of them and keep its meaning. */
  predicate Removable(width: nat, length: nat) {
    if width == 1 then length % 2 == 1 else length >= width
  }

  /** The selection already stands between two delimiters of this width. */
  predicate Delimited(before: string, after: string, width: nat) {
    EndsWith(before, Repeat('*', width)) && StartsWith(after, Repeat('*', width))
  }

  /** ... and an earlier call escaped authored stars beside those delimiters. */
  predicate HasEscapes(before: string, after: string, width: nat)
    requires Delimited(before, after, width)
  {
    TrailingPairs(before[..|before| - width], '*') > 0 || LeadingPairs(after[width..], '*') > 0
  }

  predicate RemovesOutside(before: string, after: string, width: nat) {
    && TrailingRun(before, '*') == LeadingRun(after, '*')
    && Removable(width, TrailingRun(before, '*'))
  }

  predicate RemovesInside(selected: string, width: nat) {
    var leading := LeadingRun(selected, '*');
    var trailing := TrailingRun(selected[leading..], '*');
    leading == trailing && leading + trailing < |selected| && Removable(width, leading)
  }

  /** The call adds delimiters instead of removing any. */
  predicate Wraps(before: string, selected: string, after: string, width: nat) {
    && !(Delimited(before, after, width) && (HasEscapes(before, after, width) || RemovesOutside(before, after, width)))
    && !RemovesInside(selected, width)
  }

  function Content(selected: string): string {
    if selected == "" then PLACEHOLDER else selected
  }

  function UnwrappedOutside(before: string, selected: string, after: string, width: nat): Edit
    requires Delimited(before, after, width)
  {
    Edit(before[..|before| - width] + selected + after[width..],
         |before| - width, |before| - width + |selected|)
  }

  function UnwrappedInside(before: string, selected: string, after: string, width: nat): Edit
    requires RemovesInside(selected, width)
  {
    var inner := selected[width..|selected| - width];
    Edit(before + inner + after, |before|, |before| + |inner|)
  }

  /** What stands left of the new delimiter: authored stars are escaped when the two adjacent runs differ. */
  function LeftContext(before: string, after: string): string {
    var a, b := TrailingRun(before, '*'), LeadingRun(after, '*');
    if a == b then before else EscapeTail(before, '*')
  }

  function RightContext(before: string, after: string): string {
    var a, b := TrailingRun(before, '*'), LeadingRun(after, '*');
    if a == b then after else EscapeHead(after, '*')
  }

  function Wrapped(before: string, selected: string, after: string, width: nat): Edit {
    var left := LeftContext(before, after) + Repeat('*', width);
    var right := Repeat('*', width) + RightContext(before, after);
    Edit(left + Content(selected) + right, |left|, |left| + |Content(selected)|)
  }

  function Stars(before: string, selected: string, after: string, width: nat): Edit {
    if Delimited(before, after, width) && HasEscapes(before, after, width) then
      Unescaped(before[..|before| - width], selected, after[width..], '*')
    else if Delimited(before, after, width) && RemovesOutside(before, after, width) then
      UnwrappedOutside(before, selected, after, width)
    else if RemovesInside(selected, width) then
      UnwrappedInside(before, selected, after, width)
    else
      Wrapped(before, selected, after, width)
  }

  /** The cursor code: counts runs by walking, then splices. */
  method WrapStars(source: string, start: nat, end: nat, width: nat) returns (r: Edit)
    requires start <= end <= |source| && width in {1, 2}
    ensures r == Stars(source[..start], source[start..end], source[end..], width)
  {
    hide Delimited, HasEscapes, RemovesOutside, Unescaped, UnwrappedOutside, Wrapped, LeadingRun, TrailingRun;
    var selected := source[start..end];
    var marker := Repeat('*', width);
    DelimitedBySlices(source, start, end, width);
    if start >= width && Slice(source, start - width, start) == marker && Slice(source, end, end + width) == marker {
      var removed, edit := RemoveAround(source, start, end, width);
      if removed {
        return edit;
      }
    }
    var leading, trailing := EdgeRuns(selected);
    if leading == trailing && leading + trailing < |selected| && Removable(width, leading) {
      var inner := selected[width..|selected| - width];
      return Edit(source[..start] + inner + source[end..], start, start + |inner|);
    }
    r := AddAround(source, start, end, width);
  }

  /** The selection is delimited: unescape, or take one marker off each equal run, or decline. */
  method RemoveAround(source: string, start: nat, end: nat, width: nat) returns (removed: bool, r: Edit)
    requires start <= end <= |source| && Delimited(source[..start], source[end..], width)
    ensures var before, selected, after := source[..start], source[start..end], source[end..];
            && (removed <==> HasEscapes(before, after, width) || RemovesOutside(before, after, width))
            && (removed ==> r == if HasEscapes(before, after, width)
                                 then Unescaped(before[..|before| - width], selected, after[width..], '*')
                                 else UnwrappedOutside(before, selected, after, width))
  {
    hide TrailingRun, LeadingRun, TrailingPairs, LeadingPairs, Unescaped;
    CutInside(source, start, end, width);
    var edit;
    removed, edit := RestoreAround(source, start - width, end + width, source[start..end]);
    if removed {
      return true, edit;
    }
    var ls, le := AdjacentRun(source, start, -1, '*');
    var rs, re := AdjacentRun(source, end, 1, '*');
    if le - ls == re - rs && Removable(width, le - ls) {
      return true, Edit(source[..start - width] + source[start..end] + source[end + width..], start - width,
                        end - width);
    }
    return false, edit;
  }

  lemma {:induction false} CutInside(source: string, start: nat, end: nat, width: nat)
    requires width <= start <= end && end + width <= |source|
    ensures source[..start - width] == source[..start][..start - width]
    ensures source[end + width..] == source[end..][width..]
  {
  }

  /** Escaped stars beside the delimiters become bare stars around the selection. */
  method RestoreAround(source: string, leftEnd: nat, rightStart: nat, selected: string)
    returns (restored: bool, r: Edit)
    requires leftEnd <= |source| && rightStart <= |source|
    ensures var left, right := source[..leftEnd], source[rightStart..];
            && (restored <==> TrailingPairs(left, '*') > 0 || LeadingPairs(right, '*') > 0)
            && (restored ==> r == Unescaped(left, selected, right, '*'))
  {
    var leftStart, leftCount := EscapedRunBefore(source, leftEnd, '*');
    var rightEnd, rightCount := EscapedRunAfter(source, rightStart, '*');
    var replacement := Repeat('*', leftCount) + selected + Repeat('*', rightCount);
    assert source[..leftStart] == source[..leftEnd][..leftStart];
    assert source[rightEnd..] == source[rightStart..][2 * rightCount..];
    return leftCount > 0 || rightCount > 0,
           Edit(source[..leftStart] + replacement + source[rightEnd..], leftStart + leftCount,
                leftStart + leftCount + |selected|);
  }

  /** Counts the stars at both ends of the selection, never counting one twice. */
  method EdgeRuns(selected: string) returns (leading: nat, trailing: nat)
    ensures leading == LeadingRun(selected, '*')
    ensures trailing == TrailingRun(selected[leading..], '*')
  {
    leading := 0;
    while leading < |selected| && selected[leading] == '*'
      invariant 0 <= leading <= |selected|
      invariant LeadingRun(selected, '*') == leading + LeadingRun(selected[leading..], '*')
    {
      assert selected[leading..][1..] == selected[leading + 1..];
      leading := leading + 1;
    }
    ghost var rest := selected[leading..];
    assert rest[..|rest|] == rest;
    trailing := 0;
    while trailing < |selected| - leading && selected[|selected| - 1 - trailing] == '*'
      invariant 0 <= trailing <= |rest|
      invariant TrailingRun(rest, '*') == trailing + TrailingRun(rest[..|rest| - trailing], '*')
    {
      assert rest[..|rest| - trailing][..|rest| - trailing - 1] == rest[..|rest| - trailing - 1];
      trailing := trailing + 1;
    }
  }

  /** Wraps the selection or the placeholder, escaping both adjacent runs when they differ. */
  method AddAround(source: string, start: nat, end: nat, width: nat) returns (r: Edit)
    requires start <= end <= |source|
    ensures r == Wrapped(source[..start], source[start..end], source[end..], width)
  {
    ghost var before, after := source[..start], source[end..];
    var content := Content(source[start..end]);
    var marker := Repeat('*', width);
    var ls, le := AdjacentRun(source, start, -1, '*');
    var rs, re := AdjacentRun(source, end, 1, '*');
    if le - ls == re - rs {
      r := Edit(source[..start] + marker + content + marker + source[end..], start + width, start + width + |content|);
      Regroup(before, marker, content, marker, after);
      return;
    }
    var left, right := EscapeAround(source, start, end, '*');
    r := Edit(left + marker + content + marker + right, |left| + width, |left| + width + |content|);
    Regroup(left, marker, content, marker, right);
  }

  lemma {:induction false} DelimitedBySlices(source: string, start: nat, end: nat, width: nat)
    requires start <= end <= |source|
    ensures Delimited(source[..start], source[end..], width) <==>
            start >= width && Slice(source, start - width, start) == Repeat('*', width)
              && Slice(source, end, end + width) == Repeat('*', width)
  {
    var before, after, marker := source[..start], source[end..], Repeat('*', width);
    if start >= width {
      assert before[|before| - width..] == source[start - width..start];
    }
    if end + width <= |source| {
      assert after[..width] == source[end..end + width];
    } else {
      assert |Slice(source, end, end + width)| < width;
    }
  }

  /**
   Exactly when a second call takes back what a wrapping call added. Equal
   adjacent runs are left alone by the first call, so an escape written by the
   author right at a delimiter would be read as the toolbar's own; unequal runs
   are escaped, so only an authored escape after the right run can be.
   */
  predicate Restorable(before: string, after: string) {
    var a, b := TrailingRun(before, '*'), LeadingRun(after, '*');
    if a == b then !EndsWith(before, "\\*") && !StartsWith(after, "\\*")
    else !StartsWith(after[b..], "\\*")
  }

  /** The action applied to an edit's text and selection. */
  function Again(e: Edit, width: nat): Edit
    requires InRange(e)
  {
    Stars(e.value[..e.start], e.value[e.start..e.end], e.value[e.end..], width)
  }

  /**
   The toggle law, for every text, selection and width. When the first call
   wraps, the second call gives back the text and the selection (the placeholder
   standing in for an empty one) if and only if `Restorable` holds.
   */
  lemma {:induction false} ToggleRestores(before: string, selected: string, after: string, width: nat)
    requires width in {1, 2} && Wraps(before, selected, after, width)
    ensures var first := Stars(before, selected, after, width);
            var content := Content(selected);
            && InRange(first)
            && first.value[first.start..first.end] == content
            && (Again(first, width) == Edit(before + content + after, |before|, |before| + |content|)
                <==> Restorable(before, after))
  {
    var first := Stars(before, selected, after, width);
    var content, marker := Content(selected), Repeat('*', width);
    var L, R := LeftContext(before, after), RightContext(before, after);
    assert first == Wrapped(before, selected, after, width);
    Seams(L + marker, content, marker + R);
    assert Again(first, width) == Stars(L + marker, content, marker + R, width);
    SecondCall(before, selected, after, width);
  }

  lemma {:induction false} SecondCall(before: string, selected: string, after: string, width: nat)
    requires width in {1, 2} && Wraps(before, selected, after, width)
    ensures var marker, content := Repeat('*', width), Content(selected);
            Stars(LeftContext(before, after) + marker, content, marker + RightContext(before, after), width)
            == Edit(before + content + after, |before|, |before| + |content|)
            <==> Restorable(before, after)
  {
    var L, R := LeftContext(before, after), RightContext(before, after);
    var marker := Repeat('*', width);
    if TrailingPairs(L, '*') > 0 || LeadingPairs(R, '*') > 0 {
      assert (L + marker)[..|L|] == L && (marker + R)[width..] == R;
      assert HasEscapes(L + marker, marker + R, width);
      SecondUnescapes(before, Content(selected), after);
    } else {
      hide *;
      SecondUnwraps(before, selected, after, width);
    }
  }

  /** No escapes beside the delimiters: the runs stay equal and `width` stars come off each. */
  lemma {:induction false} SecondUnwraps(before: string, selected: string, after: string, width: nat)
    requires width in {1, 2} && Wraps(before, selected, after, width)
    requires TrailingPairs(LeftContext(before, after), '*') == 0 && LeadingPairs(RightContext(before, after), '*') == 0
    ensures var marker, content := Repeat('*', width), Content(selected);
            Stars(LeftContext(before, after) + marker, content, marker + RightContext(before, after), width)
            == Edit(before + content + after, |before|, |before| + |content|)
    ensures Restorable(before, after)
  {
    assert TrailingRun(before, '*') == LeadingRun(after, '*') by {
      EscapesCounted(before, after, '*');
    }
    EscapeAtEdge(before, after, '*');
    var marker := Repeat('*', width);
    var left, right := before + marker, marker + after;
    assert left[..|before|] == before && right[width..] == after;
    assert !HasEscapes(left, right, width);
    GrownRunsRemovable(before, selected, after, width);
  }

  /** The runs around a fresh delimiter are equal and long enough to lose it again. */
  lemma {:induction false} GrownRunsRemovable(before: string, selected: string, after: string, width: nat)
    requires width in {1, 2} && Wraps(before, selected, after, width)
    requires TrailingRun(before, '*') == LeadingRun(after, '*')
    ensures RemovesOutside(before + Repeat('*', width), Repeat('*', width) + after, width)
  {
    TrailingRunAppend(before, '*', width);
    LeadingRunPrepend(after, '*', width);
    if TrailingRun(before, '*') >= width {
      RunDelimits(before, after, width);
    }
  }

  /** Long enough runs on both sides are delimiters. */
  lemma {:induction false} RunDelimits(before: string, after: string, width: nat)
    requires TrailingRun(before, '*') >= width && LeadingRun(after, '*') >= width
    ensures Delimited(before, after, width)
  {
    TrailingRunSplit(before, '*');
    LeadingRunSplit(after, '*');
  }

  /** Escapes beside the delimiters: each becomes a bare star, so the length tells whether all were the toolbar's. */
  lemma {:induction false} SecondUnescapes(before: string, content: string, after: string)
    requires TrailingPairs(LeftContext(before, after), '*') > 0 || LeadingPairs(RightContext(before, after), '*') > 0
    ensures Unescaped(LeftContext(before, after), content, RightContext(before, after), '*')
            == Edit(before + content + after, |before|, |before| + |content|)
            <==> Restorable(before, after)
  {
    var L, R := LeftContext(before, after), RightContext(before, after);
    EscapeAtEdge(before, after, '*');
    EscapeAtEdge(before, after[LeadingRun(after, '*')..], '*');
    if TrailingRun(before, '*') == LeadingRun(after, '*') {
      assert |Unescaped(L, content, R, '*').value| < |before + content + after|;
    } else {
      UnescapeInvertsEscape(before, content, after, '*');
    }
  }

  lemma {:induction false} TrailingRunAppend(s: string, c: char, n: nat)
    ensures TrailingRun(s + Repeat(c, n), c) == TrailingRun(s, c) + n
  {
    if n == 0 {
      assert s + Repeat(c, 0) == s;
    } else {
      TrailingRunAppend(s, c, n - 1);
      var shorter := s + Repeat(c, n - 1);
      RepeatGrows(c, n - 1);
      assert s + (Repeat(c, n - 1) + [c]) == shorter + [c];
      OneMore(shorter, c);
    }
  }

  lemma {:induction false} RepeatGrows(c: char, n: nat)
    ensures Repeat(c, n + 1) == Repeat(c, n) + [c] == [c] + Repeat(c, n)
  {
  }

  lemma {:induction false} OneMore(s: string, c: char)
    ensures TrailingRun(s + [c], c) == TrailingRun(s, c) + 1
    ensures LeadingRun([c] + s, c) == LeadingRun(s, c) + 1
  {
    assert (s + [c])[..|s|] == s;
    assert ([c] + s)[1..] == s;
  }

  lemma {:induction false} LeadingRunPrepend(s: string, c: char, n: nat)
    ensures LeadingRun(Repeat(c, n) + s, c) == n + LeadingRun(s, c)
  {
    if n == 0 {
      assert Repeat(c, 0) + s == s;
    } else {
      LeadingRunPrepend(s, c, n - 1);
      var shorter := Repeat(c, n - 1) + s;
      RepeatGrows(c, n - 1);
      assert ([c] + Repeat(c, n - 1)) + s == [c] + shorter;
      OneMore(shorter, c);
    }
  }
}
