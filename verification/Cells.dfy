/** The text of a table cell, with backslashes and bars escaped, and the rows it stands in. */
module Cells {
  import opened Text

  const LEAD := "| "
  const COLUMN := " | Column 2 |"
  const CELL := " | Cell 2 |"
  const SEPARATOR := "| --- | --- |"

  function ReplaceAll(s: string, c: char, with: string): string {
    if s == "" then "" else (if s[0] == c then with else [s[0]]) + ReplaceAll(s[1..], c, with)
  }

  /** Backslashes first, then bars. */
  function EscapeCell(s: string): string {
    ReplaceAll(ReplaceAll(s, '\\', "\\\\"), '|', "\\|")
  }

  function Special(c: char): bool {
    c == '\\' || c == '|'
  }

  /** The same in one pass: a backslash before every special character. */
  function Escaping(s: string): string {
    if s == "" then "" else (if Special(s[0]) then ['\\', s[0]] else [s[0]]) + Escaping(s[1..])
  }

  lemma {:induction false} ReplaceAppend(a: string, b: string, c: char, with: string)
    ensures ReplaceAll(a + b, c, with) == ReplaceAll(a, c, with) + ReplaceAll(b, c, with)
  {
    if a == "" {
      assert a + b == b && "" + ReplaceAll(b, c, with) == ReplaceAll(b, c, with);
    } else {
      ReplaceAppend(a[1..], b, c, with);
      assert (a + b)[1..] == a[1..] + b;
      var x := if a[0] == c then with else [a[0]];
      assert x + (ReplaceAll(a[1..], c, with) + ReplaceAll(b, c, with))
             == (x + ReplaceAll(a[1..], c, with)) + ReplaceAll(b, c, with);
    }
  }

  lemma {:induction false} OneReplaced(c: char, x: char, with: string)
    ensures ReplaceAll([x], c, with) == if x == c then with else [x]
  {
    assert [x][1..] == "" && with + "" == with && [x] + "" == [x];
  }

  lemma {:induction false} EscapedInOnePass(s: string)
    ensures EscapeCell(s) == Escaping(s)
  {
    if s != "" {
      EscapedInOnePass(s[1..]);
      var rest := ReplaceAll(s[1..], '\\', "\\\\");
      var x: string := if s[0] == '\\' then "\\\\" else [s[0]];
      ReplaceAppend(x, rest, '|', "\\|");
      OneReplaced('|', s[0], "\\|");
      if s[0] == '\\' {
        assert "\\\\" == "\\" + "\\";
        ReplaceAppend("\\", "\\", '|', "\\|");
      }
    }
  }

  /** A backslash before a special character is dropped, from left to right. */
  function Unescape(s: string): string {
    if s == "" then ""
    else if s[0] == '\\' && |s| > 1 && Special(s[1]) then [s[1]] + Unescape(s[2..])
    else [s[0]] + Unescape(s[1..])
  }

  method UnescapeCell(value: string) returns (unescaped: string)
    ensures unescaped == Unescape(value)
  {
    unescaped := "";
    var index := 0;
    assert value[0..] == value && "" + Unescape(value) == Unescape(value);
    while index < |value|
      invariant 0 <= index <= |value|
      invariant Unescape(value) == unescaped + Unescape(value[index..])
    {
      UnescapeFrom(value, index, unescaped);
      if value[index] == '\\' && index + 1 < |value| && (value[index + 1] == '\\' || value[index + 1] == '|') {
        index := index + 1;
      }
      unescaped := unescaped + [value[index]];
      index := index + 1;
    }
    assert value[index..] == "" && unescaped + "" == unescaped;
  }

  lemma {:induction false} UnescapeFrom(value: string, i: nat, done: string)
    requires i < |value|
    ensures var j := if value[i] == '\\' && i + 1 < |value| && Special(value[i + 1]) then i + 1 else i;
            done + Unescape(value[i..]) == (done + [value[j]]) + Unescape(value[j + 1..])
  {
    var s := value[i..];
    assert s[1..] == value[i + 1..];
    assert |s| > 1 ==> s[2..] == value[i + 2..];
    var j := if value[i] == '\\' && i + 1 < |value| && Special(value[i + 1]) then i + 1 else i;
    assert done + ([value[j]] + Unescape(value[j + 1..])) == (done + [value[j]]) + Unescape(value[j + 1..]);
  }

  /** Unescaping inverts escaping, for every text. */
  lemma {:induction false} UnescapeInverts(s: string)
    ensures Unescape(Escaping(s)) == s
  {
    if s != "" {
      var e := Escaping(s);
      UnescapeInverts(s[1..]);
      if Special(s[0]) {
        assert e[2..] == Escaping(s[1..]);
      } else {
        assert e[1..] == Escaping(s[1..]);
      }
    }
  }

  lemma {:induction false} EscapingAppend(a: string, b: string)
    ensures Escaping(a + b) == Escaping(a) + Escaping(b)
  {
    if a == "" {
      assert a + b == b && "" + Escaping(b) == Escaping(b);
    } else {
      EscapingAppend(a[1..], b);
      assert (a + b)[1..] == a[1..] + b;
      var x := if Special(a[0]) then ['\\', a[0]] else [a[0]];
      assert x + (Escaping(a[1..]) + Escaping(b)) == (x + Escaping(a[1..])) + Escaping(b);
    }
  }

  /** The escaped prefix of a text unescapes to the prefix: positions map back. */
  lemma {:induction false} PrefixMapsBack(s: string, n: nat)
    requires n <= |s|
    ensures var k := |Escaping(s[..n])|; k <= |Escaping(s)| && Unescape(Escaping(s)[..k]) == s[..n]
  {
    assert s == s[..n] + s[n..];
    EscapingAppend(s[..n], s[n..]);
    assert Escaping(s)[..|Escaping(s[..n])|] == Escaping(s[..n]);
    UnescapeInverts(s[..n]);
  }

  lemma {:induction false} EscapingMonotone(s: string, m: nat, n: nat)
    requires m <= n <= |s|
    ensures |Escaping(s[..m])| <= |Escaping(s[..n])| <= |Escaping(s)|
  {
    assert s[..n] == s[..m] + s[m..n] && s == s[..n] + s[n..];
    EscapingAppend(s[..m], s[m..n]);
    EscapingAppend(s[..n], s[n..]);
  }

  lemma {:induction false} UnescapeIsNoLonger(s: string)
    ensures |Unescape(s)| <= |s|
    decreases |s|
  {
    if s != "" {
      UnescapeIsNoLonger(s[1..]);
      if |s| > 1 {
        UnescapeIsNoLonger(s[2..]);
      }
    }
  }

  lemma {:induction false} EscapingIsPlain(s: string)
    requires '\n' !in s
    ensures '\n' !in Escaping(s)
  {
    if s != "" {
      EscapingIsPlain(s[1..]);
    }
  }

  // ---- Rows ----

  /** A line with the two-column shape whose second cell is the given one. */
  predicate IsRow(text: string, suffix: string) {
    StartsWith(text, LEAD) && EndsWith(text, suffix)
  }

  /** What stands between the lead and the suffix; nothing where they overlap. */
  function Encoded(text: string, suffix: string): string {
    if |text| >= |LEAD| + |suffix| then text[|LEAD|..|text| - |suffix|] else ""
  }

  function Dashes(s: string): (rest: string)
    ensures |rest| <= |s|
  {
    s[LeadingRun(s, '-')..]
  }

  /** Two cells of three or more dashes each. */
  predicate IsSeparator(text: string) {
    StartsWith(text, LEAD)
    && (var first := text[|LEAD|..];
        LeadingRun(first, '-') >= 3 && StartsWith(Dashes(first), " | ")
        && (var second := Dashes(first)[3..]; LeadingRun(second, '-') >= 3 && Dashes(second) == " |"))
  }

  function RowText(t: string, suffix: string): string {
    LEAD + Escaping(t) + suffix
  }

  lemma {:induction false} RowReads(t: string, suffix: string)
    ensures IsRow(RowText(t, suffix), suffix) && Encoded(RowText(t, suffix), suffix) == Escaping(t)
    ensures |RowText(t, suffix)| == |LEAD| + |Escaping(t)| + |suffix|
  {
    Seams(LEAD, Escaping(t), suffix);
  }

  lemma {:induction false} LastUnits(text: string, suffix: string, k: nat)
    requires EndsWith(text, suffix) && k < |suffix|
    ensures |text| > k && text[|text| - 1 - k] == suffix[|suffix| - 1 - k]
  {
    assert text[|text| - |suffix|..][|suffix| - 1 - k] == suffix[|suffix| - 1 - k];
  }

  /** No line is both a header and a body row. */
  lemma {:induction false} NotBothRows(text: string)
    ensures !(EndsWith(text, COLUMN) && EndsWith(text, CELL))
  {
    if EndsWith(text, COLUMN) {
      LastUnits(text, COLUMN, 4);
    }
    if EndsWith(text, CELL) {
      LastUnits(text, CELL, 4);
    }
  }

  lemma {:induction false} SeparatorFacts()
    ensures IsSeparator(SEPARATOR) && !EndsWith(SEPARATOR, COLUMN) && !EndsWith(SEPARATOR, CELL)
  {
    NotEndsAt(SEPARATOR, COLUMN, 2);
    NotEndsAt(SEPARATOR, CELL, 2);
    hide EndsWith;
    SeparatorReads();
  }

  lemma {:induction false} NotEndsAt(text: string, suffix: string, k: nat)
    requires k < |text| && k < |suffix| && text[|text| - 1 - k] != suffix[|suffix| - 1 - k]
    ensures !EndsWith(text, suffix)
  {
    if EndsWith(text, suffix) {
      LastUnits(text, suffix, k);
    }
  }

  lemma {:induction false} SeparatorReads()
    ensures IsSeparator(SEPARATOR)
  {
    var first := SEPARATOR[2..];
    assert SEPARATOR[..2] == LEAD && first == "--- | --- |";
    ThreeDashes(first, " | --- |");
    var second := Dashes(first)[3..];
    assert Dashes(first)[..3] == " | " && second == "--- |";
    ThreeDashes(second, " |");
    hide LeadingRun, Dashes;
  }

  lemma {:induction false} ThreeDashes(s: string, rest: string)
    requires s == "---" + rest && rest != "" && rest[0] != '-'
    ensures LeadingRun(s, '-') == 3 && Dashes(s) == rest
  {
    assert s[1..] == "--" + rest && s[1..][1..] == "-" + rest && s[1..][1..][1..] == rest;
    assert LeadingRun(rest, '-') == 0;
    assert LeadingRun("-" + rest, '-') == 1;
    assert s[3..] == rest;
  }
}
