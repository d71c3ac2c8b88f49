/** Texts cut at a separator and put together again. */
module Separated {

  /** The parts between occurrences of `c`, one more than there are occurrences. */
  function SplitOn(s: string, c: char): (parts: seq<string>)
    ensures parts != []
  {
    if s == "" then [""]
    else
      var rest := SplitOn(s[1..], c);
      if s[0] == c then [""] + rest else [[s[0]] + rest[0]] + rest[1..]
  }

  function JoinWith(parts: seq<string>, c: char): string {
    if parts == [] then ""
    else if |parts| == 1 then parts[0]
    else parts[0] + [c] + JoinWith(parts[1..], c)
  }

  /** No part contains the separator. */
  predicate Clean(parts: seq<string>, c: char) {
    forall i | 0 <= i < |parts| :: c !in parts[i]
  }

  lemma {:induction false} JoinInvertsSplit(s: string, c: char)
    ensures Clean(SplitOn(s, c), c) && JoinWith(SplitOn(s, c), c) == s
  {
    if s != "" {
      JoinInvertsSplit(s[1..], c);
      var rest := SplitOn(s[1..], c);
      if s[0] == c {
        assert ([""] + rest)[1..] == rest;
      } else {
        var parts := [[s[0]] + rest[0]] + rest[1..];
        assert parts[1..] == rest[1..];
        if |rest| > 1 {
          assert [s[0]] + rest[0] + [c] + JoinWith(rest[1..], c) == [s[0]] + (rest[0] + [c] + JoinWith(rest[1..], c));
        }
      }
    }
  }

  lemma {:induction false} SplitInvertsJoin(parts: seq<string>, c: char)
    requires parts != [] && Clean(parts, c)
    ensures SplitOn(JoinWith(parts, c), c) == parts
    decreases |JoinWith(parts, c)|, |parts|
  {
    var s := JoinWith(parts, c);
    if |parts| == 1 && s == "" {
    } else if parts[0] == "" {
      assert s == [c] + JoinWith(parts[1..], c);
      assert s[1..] == JoinWith(parts[1..], c);
      SplitInvertsJoin(parts[1..], c);
    } else {
      var shorter := [parts[0][1..]] + parts[1..];
      DropFirst(parts, c);
      SplitInvertsJoin(shorter, c);
    }
  }

  lemma {:induction false} DropFirst(parts: seq<string>, c: char)
    requires parts != [] && Clean(parts, c) && parts[0] != ""
    ensures var s, shorter := JoinWith(parts, c), [parts[0][1..]] + parts[1..];
            s != "" && s[0] == parts[0][0] && s[0] != c && s[1..] == JoinWith(shorter, c) && Clean(shorter, c)
            && [[s[0]] + shorter[0]] + shorter[1..] == parts
  {
    var h, t := parts[0][0], parts[0][1..];
    var shorter := [t] + parts[1..];
    assert parts[0] == [h] + t && h in parts[0];
    if |parts| > 1 {
      FirstApart(h, t, c, JoinWith(parts[1..], c));
      assert JoinWith(shorter, c) == t + [c] + JoinWith(parts[1..], c);
    }
  }

  lemma {:induction false} FirstApart(h: char, t: string, c: char, rest: string)
    ensures [h] + t + [c] + rest == [h] + (t + [c] + rest) && ([h] + (t + [c] + rest))[1..] == t + [c] + rest
  {
  }

  /** Joining two lists is joining their joins. */
  lemma {:induction false} JoinAppend(a: seq<string>, b: seq<string>, c: char)
    requires a != [] && b != []
    ensures JoinWith(a + b, c) == JoinWith(a, c) + [c] + JoinWith(b, c)
  {
    if |a| == 1 {
      assert (a + b)[1..] == b;
    } else {
      JoinAppend(a[1..], b, c);
      assert (a + b)[1..] == a[1..] + b;
      Associate(a[0], [c], JoinWith(a[1..], c), [c], JoinWith(b, c));
    }
  }

  lemma {:induction false} Associate(p: string, q: string, r: string, s: string, t: string)
    ensures p + q + (r + s + t) == p + q + r + s + t
  {
  }
}
