/**
 Text, selections and delimiter runs shared by every toolbar action.

 A text is a `string` whose elements stand for the UTF-16 code units the editor
 counts, so positions and lengths are the editor's. Of the units above
 U+3000 only U+FEFF is treated specially, as a space of the blank test of inline code.
 */
module Text {

  /** What an action returns: the complete new text and the selection in it. */
  datatype Edit = Edit(value: string, start: nat, end: nat)

  /** The selection lies inside the text. */
  predicate InRange(e: Edit) {
    e.start <= e.end <= |e.value|
  }

  /** `source.slice(lo, hi)` for non-negative positions. */
  function Slice(s: string, lo: nat, hi: nat): string {
    if lo <= hi <= |s| then s[lo..hi]
    else if lo <= |s| < hi then s[lo..]
    else ""
  }

  /** `s.indexOf(c, from)`, or the length of `s` when there is none. */
  function IndexOf(s: string, c: char, from: nat): (i: nat)
    requires from <= |s|
    ensures from <= i <= |s| && (i < |s| ==> s[i] == c)
    ensures forall j | from <= j < i :: s[j] != c
    decreases |s| - from
  {
    if from == |s| || s[from] == c then from else IndexOf(s, c, from + 1)
  }

  /** A slice cut short by the end of the text is too short. */
  lemma {:induction false} SliceLength(s: string, lo: nat, hi: nat)
    requires lo < hi
    ensures |Slice(s, lo, hi)| == hi - lo <==> hi <= |s|
  {
  }

  function Repeat(c: char, n: nat): string {
    seq(n, _ => c)
  }

  /** `n` copies of `c`, each preceded by a backslash. */
  function Escaped(c: char, n: nat): (s: string)
    ensures |s| == 2 * n
  {
    if n == 0 then "" else ['\\', c] + Escaped(c, n - 1)
  }

  predicate StartsWith(s: string, prefix: string) {
    |prefix| <= |s| && s[..|prefix|] == prefix
  }

  predicate EndsWith(s: string, suffix: string) {
    |suffix| <= |s| && s[|s| - |suffix|..] == suffix
  }

  /** How many `c` end `s`. */
  function TrailingRun(s: string, c: char): (n: nat)
    ensures n <= |s|
  {
    if s != "" && s[|s| - 1] == c then 1 + TrailingRun(s[..|s| - 1], c) else 0
  }

  /** How many `c` start `s`. */
  function LeadingRun(s: string, c: char): (n: nat)
    ensures n <= |s|
  {
    if s != "" && s[0] == c then 1 + LeadingRun(s[1..], c) else 0
  }

  /** How many backslash-escaped `c` end `s`. */
  function TrailingPairs(s: string, c: char): (n: nat)
    ensures 2 * n <= |s|
  {
    if |s| >= 2 && s[|s| - 2] == '\\' && s[|s| - 1] == c then 1 + TrailingPairs(s[..|s| - 2], c) else 0
  }

  /** How many backslash-escaped `c` start `s`. */
  function LeadingPairs(s: string, c: char): (n: nat)
    ensures 2 * n <= |s|
  {
    if |s| >= 2 && s[0] == '\\' && s[1] == c then 1 + LeadingPairs(s[2..], c) else 0
  }

  /** Walks from `position` over a run of `c`: leftwards when `direction` is negative, else rightwards. */
  method AdjacentRun(source: string, position: nat, direction: int, c: char) returns (start: nat, end: nat)
    requires position <= |source|
    ensures direction < 0 ==> end == position && start == position - TrailingRun(source[..position], c)
    ensures direction >= 0 ==> start == position && end == position + LeadingRun(source[position..], c)
  {
    var cursor := position;
    if direction < 0 {
      while cursor > 0 && source[cursor - 1] == c
        invariant 0 <= cursor <= position
        invariant TrailingRun(source[..position], c) == position - cursor + TrailingRun(source[..cursor], c)
      {
        assert source[..cursor][..cursor - 1] == source[..cursor - 1];
        cursor := cursor - 1;
      }
      return cursor, position;
    }
    while cursor < |source| && source[cursor] == c
      invariant position <= cursor <= |source|
      invariant LeadingRun(source[position..], c) == cursor - position + LeadingRun(source[cursor..], c)
    {
      assert source[cursor..][1..] == source[cursor + 1..];
      cursor := cursor + 1;
    }
    return position, cursor;
  }

  /** Walks left from `position` over backslash-escaped `c`. */
  method EscapedRunBefore(source: string, position: nat, c: char) returns (start: nat, count: nat)
    requires position <= |source|
    ensures count == TrailingPairs(source[..position], c) && start == position - 2 * count
  {
    var cursor := position;
    count := 0;
    while cursor >= 2 && source[cursor - 2] == '\\' && source[cursor - 1] == c
      invariant 0 <= cursor == position - 2 * count
      invariant TrailingPairs(source[..position], c) == count + TrailingPairs(source[..cursor], c)
    {
      assert source[..cursor][..cursor - 2] == source[..cursor - 2];
      cursor, count := cursor - 2, count + 1;
    }
    start := cursor;
  }

  /** Walks right from `position` over backslash-escaped `c`. */
  method EscapedRunAfter(source: string, position: nat, c: char) returns (end: nat, count: nat)
    requires position <= |source|
    ensures count == LeadingPairs(source[position..], c) && end == position + 2 * count
  {
    var cursor := position;
    count := 0;
    while cursor + 1 < |source| && source[cursor] == '\\' && source[cursor + 1] == c
      invariant position <= cursor == position + 2 * count <= |source|
      invariant LeadingPairs(source[position..], c) == count + LeadingPairs(source[cursor..], c)
    {
      assert source[cursor..][2..] == source[cursor + 2..];
      cursor, count := cursor + 2, count + 1;
    }
    end := cursor;
  }

  /** Concatenation regrouped around a middle part. */
  lemma {:induction false} Regroup(a: string, b: string, c: string, d: string, e: string)
    ensures a + b + c + d + e == (a + b) + c + (d + e)
    ensures a + (b + c + d) + e == (a + b) + c + (d + e)
  {
  }

  /** Ending in two parts is ending in the second with the first right before it. */
  lemma {:induction false} EndsWithBoth(s: string, x: string, y: string)
    ensures EndsWith(s, x + y) <==>
            |x| + |y| <= |s| && s[|s| - |x| - |y|..|s| - |y|] == x && s[|s| - |y|..] == y
  {
    if |x| + |y| <= |s| {
      var tail := s[|s| - |x| - |y|..];
      assert tail[..|x|] == s[|s| - |x| - |y|..|s| - |y|] && tail[|x|..] == s[|s| - |y|..];
      assert tail == tail[..|x|] + tail[|x|..];
      assert (x + y)[..|x|] == x && (x + y)[|x|..] == y;
    }
  }

  lemma {:induction false} StartsWithBoth(s: string, x: string, y: string)
    ensures StartsWith(s, x + y) <==>
            |x| + |y| <= |s| && s[..|x|] == x && s[|x|..|x| + |y|] == y
  {
    if |x| + |y| <= |s| {
      var head := s[..|x| + |y|];
      assert head[..|x|] == s[..|x|] && head[|x|..] == s[|x|..|x| + |y|];
      assert head == head[..|x|] + head[|x|..];
      assert (x + y)[..|x|] == x && (x + y)[|x|..] == y;
    }
  }

  lemma {:induction false} DropPrefix(a: string, b: string)
    ensures (a + b)[|a|..] == b
  {
  }

  /** Cutting a concatenation at its seams gives the parts back. */
  lemma {:induction false} Seams(a: string, b: string, c: string)
    ensures (a + b + c)[..|a|] == a
    ensures (a + b + c)[|a|..|a| + |b|] == b
    ensures (a + b + c)[|a| + |b|..] == c
  {
  }

  /** A text splits into what precedes its last run of `c` and that run. */
  lemma {:induction false} TrailingRunSplit(s: string, c: char)
    ensures var n := TrailingRun(s, c); var rest := s[..|s| - n];
            s == rest + Repeat(c, n) && TrailingRun(rest, c) == 0
  {
    if s != "" && s[|s| - 1] == c {
      var init := s[..|s| - 1];
      TrailingRunSplit(init, c);
      assert s == init + [c];
      assert s[..|s| - TrailingRun(s, c)] == init[..|init| - TrailingRun(init, c)];
    }
  }

  lemma {:induction false} LeadingRunSplit(s: string, c: char)
    ensures var n := LeadingRun(s, c);
            s == Repeat(c, n) + s[n..] && LeadingRun(s[n..], c) == 0
  {
    if s != "" && s[0] == c {
      LeadingRunSplit(s[1..], c);
      var m := LeadingRun(s[1..], c);
      assert s[1..][m..] == s[m + 1..];
      assert s == [c] + s[1..];
    }
  }

  /** After a text that ends in no `c`, exactly the appended escapes are counted. */
  lemma {:induction false} TrailingPairsOfEscaped(rest: string, c: char, n: nat)
    requires TrailingRun(rest, c) == 0
    ensures TrailingPairs(rest + Escaped(c, n), c) == n
  {
    if n > 0 {
      TrailingPairsOfEscaped(rest, c, n - 1);
      EscapedAtEnd(c, n - 1);
      var s := rest + Escaped(c, n);
      assert s == rest + Escaped(c, n - 1) + ['\\', c];
      assert s[..|s| - 2] == rest + Escaped(c, n - 1);
    }
  }

  lemma {:induction false} EscapedAtEnd(c: char, n: nat)
    ensures Escaped(c, n + 1) == Escaped(c, n) + ['\\', c]
  {
    if n > 0 {
      EscapedAtEnd(c, n - 1);
    }
  }

  lemma {:induction false} OnePairMore(s: string, c: char)
    ensures LeadingPairs(['\\', c] + s, c) == 1 + LeadingPairs(s, c)
  {
    assert (['\\', c] + s)[2..] == s;
  }

  /** Escapes put before a text add to the escapes the text already starts with. */
  lemma {:induction false} LeadingPairsOfEscaped(rest: string, c: char, n: nat)
    ensures LeadingPairs(Escaped(c, n) + rest, c) == n + LeadingPairs(rest, c)
  {
    if n == 0 {
      assert Escaped(c, 0) + rest == rest;
    } else {
      LeadingPairsOfEscaped(rest, c, n - 1);
      var s := Escaped(c, n - 1) + rest;
      assert Escaped(c, n) + rest == ['\\', c] + s;
      OnePairMore(s, c);
    }
  }

  /** Dropping the counted escapes leaves what followed them. */
  lemma {:induction false} DropEscaped(rest: string, c: char, n: nat)
    ensures (Escaped(c, n) + rest)[2 * n..] == rest
  {
  }

  /** The text before a new delimiter, with the run of `c` it ends in escaped. */
  function EscapeTail(before: string, c: char): string {
    var a := TrailingRun(before, c);
    before[..|before| - a] + Escaped(c, a)
  }

  /** The text after a new delimiter, with the run of `c` it starts with escaped. */
  function EscapeHead(after: string, c: char): string {
    var b := LeadingRun(after, c);
    Escaped(c, b) + after[b..]
  }

  /** Escapes ending `left` and starting `right` become bare units around the selection. */
  function Unescaped(left: string, selected: string, right: string, c: char): Edit {
    var l, r := TrailingPairs(left, c), LeadingPairs(right, c);
    Edit(left[..|left| - 2 * l] + (Repeat(c, l) + selected + Repeat(c, r)) + right[2 * r..],
         |left| - l, |left| - l + |selected|)
  }

  /** A later scan finds the escapes just added, and on the right also any the author wrote next. */
  lemma {:induction false} EscapesCounted(before: string, after: string, c: char)
    ensures var b := LeadingRun(after, c);
            && TrailingPairs(EscapeTail(before, c), c) == TrailingRun(before, c)
            && LeadingPairs(EscapeHead(after, c), c) == b + LeadingPairs(after[b..], c)
  {
    TrailingRunSplit(before, c);
    TrailingPairsOfEscaped(before[..|before| - TrailingRun(before, c)], c, TrailingRun(before, c));
    LeadingPairsOfEscaped(after[LeadingRun(after, c)..], c, LeadingRun(after, c));
  }

  /** Escaping both sides and unescaping again is exact if and only if the author wrote no escape next. */
  lemma {:induction false} UnescapeInvertsEscape(before: string, selected: string, after: string, c: char)
    ensures Unescaped(EscapeTail(before, c), selected, EscapeHead(after, c), c)
            == Edit(before + selected + after, |before|, |before| + |selected|)
            <==> LeadingPairs(after[LeadingRun(after, c)..], c) == 0
  {
    EscapesCounted(before, after, c);
    if LeadingPairs(after[LeadingRun(after, c)..], c) == 0 {
      UnescapesExactly(before, selected, after, c);
    } else {
      var L, R := EscapeTail(before, c), EscapeHead(after, c);
      assert |Unescaped(L, selected, R, c).value| < |before + selected + after|;
    }
  }

  lemma {:induction false} UnescapesExactly(before: string, selected: string, after: string, c: char)
    requires LeadingPairs(after[LeadingRun(after, c)..], c) == 0
    ensures Unescaped(EscapeTail(before, c), selected, EscapeHead(after, c), c)
            == Edit(before + selected + after, |before|, |before| + |selected|)
  {
    var a, b := TrailingRun(before, c), LeadingRun(after, c);
    EscapesCounted(before, after, c);
    TrailingRunSplit(before, c);
    LeadingRunSplit(after, c);
    DropEscaped(after[b..], c, b);
    var rest := before[..|before| - a];
    assert EscapeTail(before, c)[..|EscapeTail(before, c)| - 2 * a] == rest;
    Regroup(rest, Repeat(c, a), selected, Repeat(c, b), after[b..]);
  }

  /** An authored escape at an edge is what the scanners count. */
  lemma {:induction false} EscapeAtEdge(before: string, after: string, c: char)
    ensures EndsWith(before, ['\\', c]) <==> TrailingPairs(before, c) > 0
    ensures StartsWith(after, ['\\', c]) <==> LeadingPairs(after, c) > 0
  {
  }

  /** Both sides of a new delimiter with the adjacent runs of `c` escaped. */
  method EscapeAround(source: string, start: nat, end: nat, c: char) returns (left: string, right: string)
    requires start <= end <= |source|
    ensures left == EscapeTail(source[..start], c) && right == EscapeHead(source[end..], c)
  {
    var ls, le := AdjacentRun(source, start, -1, c);
    var rs, re := AdjacentRun(source, end, 1, c);
    left := source[..ls] + Escaped(c, le - ls);
    right := Escaped(c, re - rs) + source[re..];
    assert source[..ls] == source[..start][..ls];
    assert source[re..] == source[end..][re - end..];
  }
}
