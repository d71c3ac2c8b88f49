/**
 The toolbar's entry: one action applied to a text and a selection, and the plain
 inline wrapping and linking that need no module of their own.
 */
module Toolbar {
  import opened Text
  import Stars
  import InlineCode
  import Lines
  import Fence
  import PrefixLines
  import Table

  const STRIKE := "~~"
  const STRIKE_PLACEHOLDER := "text"
  const LINK_TEXT := "link text"
  const DESTINATION := "https://example.org"

  datatype Action =
    | Bold | Italic | Strike | InlineCodeAction | QuoteAction | UnorderedList | OrderedList | TaskList
    | FencedCode | Link | TableAction | Unknown(name: string)

  /** A complete new text and a selection; an opened fence can put its end behind the text. */
  datatype Outcome = Outcome(value: string, start: int, end: int)

  function Of(e: Edit): Outcome {
    Outcome(e.value, e.start, e.end)
  }

  // ---- Plain inline markers ----

  predicate MarkedOutside(before: string, after: string, marker: string) {
    EndsWith(before, marker) && StartsWith(after, marker)
  }

  predicate MarkedInside(selected: string, marker: string) {
    |selected| >= 2 * |marker| && StartsWith(selected, marker) && EndsWith(selected, marker)
  }

  function Inline(before: string, selected: string, after: string, marker: string, placeholder: string): Edit {
    if MarkedOutside(before, after, marker) then
      Edit(before[..|before| - |marker|] + selected + after[|marker|..], |before| - |marker|,
           |before| - |marker| + |selected|)
    else if MarkedInside(selected, marker) then
      Edit(before + selected[|marker|..|selected| - |marker|] + after, |before|, |before| + |selected| - 2 * |marker|)
    else
      var content := if selected == "" then placeholder else selected;
      Edit(before + marker + content + marker + after, |before| + |marker|, |before| + |marker| + |content|)
  }

  lemma {:induction false} MarkedBySlices(source: string, start: nat, end: nat, marker: string)
    requires start <= end <= |source| && marker != ""
    ensures MarkedOutside(source[..start], source[end..], marker)
            <==> start >= |marker| && Slice(source, start - |marker|, start) == marker
                 && Slice(source, end, end + |marker|) == marker
  {
    SliceLength(source, end, end + |marker|);
    if start >= |marker| {
      assert source[..start][start - |marker|..] == source[start - |marker|..start];
    }
    if end + |marker| <= |source| {
      assert source[end..][..|marker|] == source[end..end + |marker|];
    }
  }

  lemma {:induction false} CutMarkers(source: string, start: nat, end: nat, n: nat)
    requires n <= start <= end && end + n <= |source|
    ensures source[..start][..start - n] == source[..start - n] && source[end..][n..] == source[end + n..]
  {
  }

  method WrapInline(source: string, start: nat, end: nat, marker: string, placeholder: string) returns (r: Edit)
    requires start <= end <= |source| && marker != ""
    ensures r == Inline(source[..start], source[start..end], source[end..], marker, placeholder)
  {
    hide StartsWith, EndsWith, Slice, MarkedOutside;
    SliceLength(source, end, end + |marker|);
    var selected := source[start..end];
    MarkedBySlices(source, start, end, marker);
    if start >= |marker| && Slice(source, start - |marker|, start) == marker
      && Slice(source, end, end + |marker|) == marker {
      CutMarkers(source, start, end, |marker|);
      return Edit(source[..start - |marker|] + selected + source[end + |marker|..], start - |marker|, end - |marker|);
    }
    if |selected| >= |marker| * 2 && StartsWith(selected, marker) && EndsWith(selected, marker) {
      var inner := selected[|marker|..|selected| - |marker|];
      return Edit(source[..start] + inner + source[end..], start, start + |inner|);
    }
    var content := if selected == "" then placeholder else selected;
    return Edit(source[..start] + marker + content + marker + source[end..], start + |marker|,
                start + |marker| + |content|);
  }

  /**
   When the first call wraps, the second gives back the text and the selection, the
   placeholder standing in for an empty one.
   */
  lemma {:induction false} InlineToggleRestores(before: string, selected: string, after: string, marker: string,
        placeholder: string)
    requires !MarkedOutside(before, after, marker) && !MarkedInside(selected, marker)
    ensures var e := Inline(before, selected, after, marker, placeholder);
            var content := if selected == "" then placeholder else selected;
            && InRange(e)
            && Inline(e.value[..e.start], e.value[e.start..e.end], e.value[e.end..], marker, placeholder)
               == Edit(before + content + after, |before|, |before| + |content|)
  {
    var content := if selected == "" then placeholder else selected;
    var left, right := before + marker, marker + after;
    assert before + marker + content + marker + after == left + content + right;
    Seams(left, content, right);
    assert left[|left| - |marker|..] == marker && left[..|left| - |marker|] == before;
    assert right[..|marker|] == marker && right[|marker|..] == after;
  }

  /** A link around the selection, or around a label to type over; what is left to fill in is selected. */
  function Linked(before: string, selected: string, after: string): Edit {
    var text := if selected == "" then LINK_TEXT else selected;
    var offset := if selected == "" then 1 else |text| + 3;
    var length := if selected == "" then |text| else |DESTINATION|;
    Edit(before + ("[" + text + "](" + DESTINATION + ")") + after, |before| + offset, |before| + offset + length)
  }

  /**
   The selection is the destination when there was a label, else the label; the rest of the
   text is untouched around it.
   */
  lemma {:induction false} LinkSelectsTheBlank(before: string, selected: string, after: string)
    ensures var e := Linked(before, selected, after);
            && InRange(e)
            && e.value[e.start..e.end] == (if selected == "" then LINK_TEXT else DESTINATION)
            && e.value[..e.start] == before + (if selected == "" then "[" else "[" + selected + "](")
            && e.value[e.end..] == (if selected == "" then "](" + DESTINATION + ")" else ")") + after
  {
    var e := Linked(before, selected, after);
    if selected == "" {
      assert e.value == (before + "[") + LINK_TEXT + ("](" + DESTINATION + ")" + after);
      Seams(before + "[", LINK_TEXT, "](" + DESTINATION + ")" + after);
    } else {
      assert e.value == (before + ("[" + selected + "](")) + DESTINATION + (")" + after);
      Seams(before + ("[" + selected + "]("), DESTINATION, ")" + after);
    }
  }

  // ---- The entry ----

  /** What an action makes of a text and a selection. */
  function Transformed(source: string, start: int, end: int, action: Action): Outcome {
    if start < 0 || end < start || end > |source| then Outcome(source, 0, 0)
    else
      var before, selected, after := source[..start], source[start..end], source[end..];
      Lines.SplitIsCanonical(source);
      var lines := Lines.Split(source);
      match action
      case Bold => Of(Stars.Stars(before, selected, after, 2))
      case Italic => Of(Stars.Stars(before, selected, after, 1))
      case Strike => Of(Inline(before, selected, after, STRIKE, STRIKE_PLACEHOLDER))
      case InlineCodeAction => Of(InlineCode.Code(before, selected, after))
      case QuoteAction => OfLines(PrefixLines.Prefixed(PrefixLines.Quote, source, start, end))
      case UnorderedList => OfLines(PrefixLines.Prefixed(PrefixLines.Unordered, source, start, end))
      case OrderedList => OfLines(PrefixLines.Prefixed(PrefixLines.Ordered, source, start, end))
      case TaskList => OfLines(PrefixLines.Prefixed(PrefixLines.Task, source, start, end))
      case FencedCode => Of(Fence.Fenced(lines, start, end))
      case Link => Of(Linked(before, selected, after))
      case TableAction => Of(Table.Tabled(lines, start, end))
      case Unknown(_) => Outcome(source, start, end)
  }

  function OfLines(r: PrefixLines.Result): Outcome {
    Outcome(r.value, r.start, r.end)
  }

  method Transform(source: string, start: int, end: int, action: Action) returns (r: Outcome)
    ensures r == Transformed(source, start, end, action)
  {
    hide Stars.Stars, InlineCode.Code, PrefixLines.Prefixed, Fence.Fenced, Table.Tabled, Lines.Split, Lines.Join,
         Lines.Canonical, Inline, Linked;
    if start < 0 || end < start || end > |source| {
      return Outcome(source, 0, 0);
    }
    var e: Edit;
    match action {
      case Bold => e := Stars.WrapStars(source, start, end, 2);
      case Italic => e := Stars.WrapStars(source, start, end, 1);
      case Strike => e := WrapInline(source, start, end, STRIKE, STRIKE_PLACEHOLDER);
      case InlineCodeAction => e := InlineCode.InlineCode(source, start, end);
      case QuoteAction =>
        var p := PrefixLines.PrefixTouched(PrefixLines.Quote, source, start, end);
        return OfLines(p);
      case UnorderedList =>
        var p := PrefixLines.PrefixTouched(PrefixLines.Unordered, source, start, end);
        return OfLines(p);
      case OrderedList =>
        var p := PrefixLines.PrefixTouched(PrefixLines.Ordered, source, start, end);
        return OfLines(p);
      case TaskList =>
        var p := PrefixLines.PrefixTouched(PrefixLines.Task, source, start, end);
        return OfLines(p);
      case FencedCode => e := Fence.FencedCode(source, start, end);
      case Link => e := Linked(source[..start], source[start..end], source[end..]);
      case TableAction => e := Table.TableAction(source, start, end);
      case Unknown(_) => return Outcome(source, start, end);
    }
    return Of(e);
  }
}
