/**
 The path of a destination in one form: canonical escapes, then no dot segments.
 `Rfc` is the algorithm of section 5.2.4 of RFC 3986 on its input and output buffers.
 */
module Path {
  import opened Options
  import opened Text
  import opened Separated
  import opened Escapes

  predicate IsDot(segment: string) {
    segment == "." || segment == ".."
  }

  /** One segment met: a double dot takes the last kept one away unless only `floor` are left. */
  function Push(kept: seq<string>, segment: string, floor: nat): seq<string> {
    if segment == "." then kept
    else if segment == ".." then (if |kept| > floor then kept[..|kept| - 1] else kept)
    else kept + [segment]
  }

  function Kept(start: seq<string>, segments: seq<string>, floor: nat): seq<string> {
    if segments == [] then start
    else Push(Kept(start, segments[..|segments| - 1], floor), segments[|segments| - 1], floor)
  }

  /** The segments of the result: rooted, and with an empty last one where a dot segment ended the path. */
  function Normal(segments: seq<string>): (n: seq<string>)
    ensures |n| >= 2
  {
    var kept := Kept([], segments, 1);
    var base := if kept == [] || kept == [""] then ["", ""] else if kept[0] == "" then kept else [""] + kept;
    if |segments| > 1 && IsDot(segments[|segments| - 1]) && base[|base| - 1] != "" then base + [""] else base
  }

  function RemoveDotSegments(raw: string): string {
    JoinWith(Normal(SplitOn(raw, '/')), '/')
  }

  lemma {:induction false} KeptIsClean(start: seq<string>, segments: seq<string>, floor: nat)
    requires Clean(start, '/') && Clean(segments, '/')
    ensures Clean(Kept(start, segments, floor), '/')
    ensures (forall s | s in start :: !IsDot(s)) ==> forall s | s in Kept(start, segments, floor) :: !IsDot(s)
  {
    if segments != [] {
      KeptIsClean(start, segments[..|segments| - 1], floor);
    }
  }

  /** A text ends in a slash and `d` exactly when `d` is the last of several segments. */
  lemma {:induction false} EndsInSegment(raw: string, d: string)
    requires '/' !in d
    ensures var segments := SplitOn(raw, '/');
            EndsWith(raw, "/" + d) <==> |segments| > 1 && segments[|segments| - 1] == d
  {
    var segments := SplitOn(raw, '/');
    var n := |segments| - 1;
    JoinInvertsSplit(raw, '/');
    if n > 0 && segments[n] == d {
      assert segments == segments[..n] + [d];
      JoinAppend(segments[..n], [d], '/');
      var before := JoinWith(segments[..n], '/');
      assert raw == before + ("/" + d);
      assert raw[|raw| - |"/" + d|..] == "/" + d;
    }
    if EndsWith(raw, "/" + d) {
      var before := raw[..|raw| - |d| - 1];
      assert raw == before + ("/" + d);
      assert raw == before + "/" + d;
      JoinInvertsSplit(before, '/');
      var parts := SplitOn(before, '/') + [d];
      JoinAppend(SplitOn(before, '/'), [d], '/');
      SplitInvertsJoin(parts, '/');
    }
  }

  /** A joined text starts and ends with a slash where its first and last segments are empty. */
  lemma {:induction false} JoinEnds(parts: seq<string>)
    requires |parts| > 1 && Clean(parts, '/')
    ensures var s := JoinWith(parts, '/');
            && s != "" && (s[0] == '/' <==> parts[0] == "") && (EndsWith(s, "/") <==> parts[|parts| - 1] == "")
  {
    hide SplitOn, EndsWith;
    var s := JoinWith(parts, '/');
    SplitInvertsJoin(parts, '/');
    EndsInSegment(s, "");
    assert "/" + "" == "/";
    assert s == parts[0] + ['/'] + JoinWith(parts[1..], '/');
    if parts[0] != "" {
      assert s[0] == parts[0][0] && parts[0][0] in parts[0];
    }
  }

  /** The segment loop, with the root and the final slash put back on the joined text. */
  method RemoveDots(raw: string) returns (result: string)
    ensures result == RemoveDotSegments(raw)
  {
    var segments := SplitOn(raw, '/');
    var output: seq<string> := [];
    for i := 0 to |segments|
      invariant output == Kept([], segments[..i], 1)
    {
      assert segments[..i + 1][..i] == segments[..i];
      if segments[i] == "." {
      } else if segments[i] == ".." {
        if |output| > 1 {
          output := output[..|output| - 1];
        }
      } else {
        output := output + [segments[i]];
      }
    }
    assert segments[..|segments|] == segments;
    hide RemoveDotSegments, Kept, SplitOn, EndsWith, JoinWith;
    result := JoinWith(output, '/');
    if result == "" || result[0] != '/' {
      result := "/" + result;
    }
    ghost var base := if output == [] || output == [""] then ["", ""]
                      else if output[0] == "" then output else [""] + output;
    Rooted(raw, output, result, base);
    SlashedOff(raw, output, result, base);
    if (EndsWith(raw, "/.") || EndsWith(raw, "/..")) && !EndsWith(result, "/") {
      result := result + "/";
    }
  }

  /** The final slash on the text is the empty last segment. */
  lemma {:induction false} SlashedOff(raw: string, output: seq<string>, result: string, base: seq<string>)
    requires output == Kept([], SplitOn(raw, '/'), 1)
    requires base == if output == [] || output == [""] then ["", ""]
             else if output[0] == "" then output else [""] + output
    requires result == JoinWith(base, '/') && (EndsWith(result, "/") <==> base[|base| - 1] == "")
    ensures RemoveDotSegments(raw)
            == if (EndsWith(raw, "/.") || EndsWith(raw, "/..")) && !EndsWith(result, "/") then result + "/" else result
  {
    hide EndsWith, Kept, SplitOn;
    EndsInSegment(raw, ".");
    EndsInSegment(raw, "..");
    assert "/" + "." == "/." && "/" + ".." == "/..";
    JoinAppend(base, [""], '/');
  }

  /** Putting the root back on the joined text is putting it back on the segments. */
  lemma {:induction false} Rooted(raw: string, output: seq<string>, result: string, base: seq<string>)
    requires output == Kept([], SplitOn(raw, '/'), 1)
    requires base == if output == [] || output == [""] then ["", ""]
             else if output[0] == "" then output else [""] + output
    requires var joined := JoinWith(output, '/');
             result == if joined == "" || joined[0] != '/' then "/" + joined else joined
    ensures result == JoinWith(base, '/') && (EndsWith(result, "/") <==> base[|base| - 1] == "")
  {
    JoinInvertsSplit(raw, '/');
    KeptIsClean([], SplitOn(raw, '/'), 1);
    hide Kept, SplitOn, EndsWith;
    JoinEnds(base);
    if output != [] && output[0] != "" {
      RootFirst(output);
    } else if |output| > 1 {
      JoinEnds(output);
    } else {
      assert JoinWith(["", ""], '/') == "" + ['/'] + JoinWith([""], '/');
    }
  }

  lemma {:induction false} RootFirst(output: seq<string>)
    requires output != [] && output[0] != "" && Clean(output, '/')
    ensures var joined := JoinWith(output, '/');
            joined != "" && joined[0] != '/' && "/" + joined == JoinWith([""] + output, '/')
  {
    var joined := JoinWith(output, '/');
    assert output[0][0] in output[0];
    assert joined[0] == output[0][0];
    assert ([""] + output)[1..] == output;
    assert "" + ['/'] + joined == "/" + joined;
  }

  // ---- What the result is ----

  /** Rooted, and no segment is a dot or a double dot. */
  ghost predicate IsNormal(parts: seq<string>) {
    |parts| >= 2 && parts[0] == "" && Clean(parts, '/') && forall s | s in parts :: !IsDot(s)
  }

  lemma {:induction false} NormalIsNormal(segments: seq<string>)
    requires Clean(segments, '/')
    ensures IsNormal(Normal(segments))
  {
    KeptIsClean([], segments, 1);
  }

  lemma {:induction false} NothingToRemove(segments: seq<string>, floor: nat)
    requires forall s | s in segments :: !IsDot(s)
    ensures Kept([], segments, floor) == segments
  {
    if segments != [] {
      NothingToRemove(segments[..|segments| - 1], floor);
      assert segments[|segments| - 1] in segments;
    }
  }

  /** The result of any text splits into a rooted list without dot segments, and removing them again changes nothing. */
  lemma {:induction false} ResultIsNormal(raw: string)
    ensures SplitOn(RemoveDotSegments(raw), '/') == Normal(SplitOn(raw, '/'))
    ensures IsNormal(SplitOn(RemoveDotSegments(raw), '/'))
    ensures RemoveDotSegments(RemoveDotSegments(raw)) == RemoveDotSegments(raw)
  {
    JoinInvertsSplit(raw, '/');
    NormalIsNormal(SplitOn(raw, '/'));
    var n := Normal(SplitOn(raw, '/'));
    SplitInvertsJoin(n, '/');
    NothingToRemove(n, 1);
    assert n[|n| - 1] in n;
  }

  // ---- Together with escapes ----

  function NormalPath(raw: string): Option<string> {
    var escaped := CanonicalEscapes(raw);
    if escaped.Some? then Some(RemoveDotSegments(escaped.value)) else None
  }

  lemma {:induction false} PartsAreCanonical(parts: seq<string>)
    requires parts != []
    ensures IsCanonical(JoinWith(parts, '/')) <==> forall i | 0 <= i < |parts| :: IsCanonical(parts[i])
  {
    hide IsCanonical;
    if |parts| > 1 {
      PartsAreCanonical(parts[1..]);
      CanonicalAcrossSlash(parts[0], JoinWith(parts[1..], '/'));
      assert forall i | 1 <= i < |parts| :: parts[i] == parts[1..][i - 1];
      if forall i | 0 <= i < |parts| :: IsCanonical(parts[i]) {
        assert forall i | 0 <= i < |parts[1..]| :: IsCanonical(parts[1..][i]);
      }
    }
  }

  lemma {:induction false} KeptFromSegments(segments: seq<string>, floor: nat)
    ensures forall s | s in Kept([], segments, floor) :: s in segments
  {
    if segments != [] {
      var n := |segments| - 1;
      KeptFromSegments(segments[..n], floor);
      var before := Kept([], segments[..n], floor);
      forall s | s in Push(before, segments[n], floor)
        ensures s in segments
      {
        assert s in before || s == segments[n];
      }
    }
  }

  /** Removing dot segments keeps escapes canonical. */
  lemma {:induction false} RemovalKeepsCanonical(s: string)
    requires IsCanonical(s)
    ensures IsCanonical(RemoveDotSegments(s))
  {
    var parts := SplitOn(s, '/');
    JoinInvertsSplit(s, '/');
    PartsAreCanonical(parts);
    KeptFromSegments(parts, 1);
    EmptyForm();
    hide IsCanonical;
    var n := Normal(parts);
    forall i | 0 <= i < |n|
      ensures IsCanonical(n[i])
    {
      assert n[i] == "" || n[i] in parts;
    }
    PartsAreCanonical(n);
  }

  /** The whole normalisation is idempotent, and equivalent texts have the same result. */
  lemma {:induction false} NormalPathIsFixed(raw: string)
    requires NormalPath(raw).Some?
    ensures NormalPath(NormalPath(raw).value) == NormalPath(raw)
  {
    FormIsFixed(raw);
    var escaped := CanonicalEscapes(raw).value;
    RemovalKeepsCanonical(escaped);
    ResultIsNormal(escaped);
  }

  lemma {:induction false} EquivalentPathsAgree(a: string, b: string)
    requires Equivalent(a, b)
    ensures NormalPath(a).Some? && NormalPath(a) == NormalPath(b)
  {
    SameFormExactly(a, b);
  }

  // ---- Section 5.2.4 of RFC 3986 ----

  /** Rule C: the last segment and its slash leave the output. */
  function RemoveLast(output: string): string {
    if output == "" then ""
    else if output[|output| - 1] == '/' then output[..|output| - 1]
    else RemoveLast(output[..|output| - 1])
  }

  function Rfc(input: string, output: string): string
    decreases |input|
  {
    if input == "" then output
    else if StartsWith(input, "../") then Rfc(input[3..], output)
    else if StartsWith(input, "./") then Rfc(input[2..], output)
    else if StartsWith(input, "/./") then Rfc(input[2..], output)
    else if input == "/." then Rfc("/", output)
    else if StartsWith(input, "/../") then Rfc(input[3..], RemoveLast(output))
    else if input == "/.." then Rfc("/", RemoveLast(output))
    else if input == "." || input == ".." then Rfc("", output)
    else
      var k := IndexOf(input, '/', 1);
      Rfc(input[k..], output + input[..k])
  }

  /** Each segment behind its slash. */
  function Slashed(segments: seq<string>): string {
    if segments == [] then "" else "/" + segments[0] + Slashed(segments[1..])
  }

  lemma {:induction false} SlashedIsJoined(segments: seq<string>)
    requires segments != []
    ensures Slashed(segments) == JoinWith([""] + segments, '/')
  {
    var all := [""] + segments;
    assert all[1..] == segments;
    if |segments| == 1 {
      assert Slashed(segments[1..]) == "";
    } else {
      SlashedIsJoined(segments[1..]);
      assert ([""] + segments[1..])[1..] == segments[1..];
      assert JoinWith([""] + segments[1..], '/') == "/" + JoinWith(segments[1..], '/');
      assert "/" + segments[0] + ("/" + JoinWith(segments[1..], '/'))
             == "/" + (segments[0] + ['/'] + JoinWith(segments[1..], '/'));
    }
  }

  lemma {:induction false} SlashedMore(segments: seq<string>, last: string)
    ensures Slashed(segments + [last]) == Slashed(segments) + ("/" + last)
  {
    if segments == [] {
      assert [last][1..] == [];
      assert "/" + last + "" == "" + ("/" + last);
    } else {
      SlashedMore(segments[1..], last);
      assert (segments + [last])[1..] == segments[1..] + [last];
      assert "/" + segments[0] + (Slashed(segments[1..]) + ("/" + last))
             == ("/" + segments[0] + Slashed(segments[1..])) + ("/" + last);
    }
  }

  lemma {:induction false} RemoveLastSegment(before: string, last: string)
    requires '/' !in last
    ensures RemoveLast(before + ("/" + last)) == before
    decreases |last|
  {
    var s := before + ("/" + last);
    if last == "" {
      assert s[..|s| - 1] == before;
    } else {
      var init := last[..|last| - 1];
      assert s[|s| - 1] == last[|last| - 1] && last[|last| - 1] in last;
      assert s[..|s| - 1] == before + ("/" + init);
      RemoveLastSegment(before, init);
    }
  }

  /** Rule C on the output is popping a kept segment. */
  lemma {:induction false} PopIsRemoveLast(kept: seq<string>)
    requires Clean(kept, '/')
    ensures RemoveLast(Slashed(kept)) == Slashed(Push(kept, "..", 0))
  {
    if kept != [] {
      var n := |kept| - 1;
      assert kept == kept[..n] + [kept[n]];
      SlashedMore(kept[..n], kept[n]);
      RemoveLastSegment(Slashed(kept[..n]), kept[n]);
    }
  }

  lemma {:induction false} FirstOfPrefix(s: string, prefix: string)
    requires prefix != ""
    ensures StartsWith(s, prefix) ==> s[0] == prefix[0]
  {
    if StartsWith(s, prefix) {
      assert s[..|prefix|][0] == s[0];
    }
  }

  /** Where the first segment of an input ends. */
  lemma {:induction false} FirstSegment(x: string, rest: string)
    requires '/' !in x && (rest == "" || rest[0] == '/')
    ensures var s := "/" + x + rest;
            && IndexOf(s, '/', 1) == 1 + |x| && s[1 + |x|..] == rest && s[..1 + |x|] == "/" + x
            && (StartsWith(s, "/./") <==> x == "." && rest != "") && (s == "/." <==> x == "." && rest == "")
            && (StartsWith(s, "/../") <==> x == ".." && rest != "") && (s == "/.." <==> x == ".." && rest == "")
            && !StartsWith(s, "../") && !StartsWith(s, "./") && s != "." && s != ".."
  {
    var s := "/" + x + rest;
    var k := IndexOf(s, '/', 1);
    assert forall j | 1 <= j < 1 + |x| :: s[j] == x[j - 1] && x[j - 1] in x;
    assert s[1..1 + |x|] == x;
    assert rest != "" ==> s[1 + |x|] == '/';
    assert s[0] == '/';
    FirstOfPrefix(s, "../");
    FirstOfPrefix(s, "./");
    if StartsWith(s, "/./") {
      assert s[2] == s[..3][2] == '/' && s[1] == s[..3][1];
      assert |x| == 1;
    }
    if StartsWith(s, "/../") {
      assert s[3] == s[..4][3] == '/' && s[2] == s[..4][2] && s[1] == s[..4][1];
      assert |x| == 2;
    }
  }

  lemma {:induction false} SlashedStarts(segments: seq<string>)
    ensures Slashed(segments) == "" || Slashed(segments)[0] == '/'
    ensures Slashed(segments) == "" <==> segments == []
  {
  }

  /**
   What the algorithm makes of a rooted input: the kept segments, and an empty one where a
   dot segment ends the input.
   */
  function RfcSegments(kept: seq<string>, todo: seq<string>): seq<string> {
    Kept(kept, todo, 0) + if todo != [] && IsDot(todo[|todo| - 1]) then [""] else []
  }

  lemma {:induction false} KeptFirst(kept: seq<string>, todo: seq<string>, floor: nat)
    requires todo != []
    ensures Kept(kept, todo, floor) == Kept(Push(kept, todo[0], floor), todo[1..], floor)
  {
    if |todo| > 1 {
      KeptFirst(kept, todo[..|todo| - 1], floor);
      assert todo[1..][..|todo| - 2] == todo[..|todo| - 1][1..];
    }
  }

  lemma {:induction false} LoneSlash(output: string)
    ensures Rfc("/", output) == output + "/"
  {
    assert IndexOf("/", '/', 1) == 1;
    assert "/"[1..] == "" && "/"[..1] == "/";
  }

  lemma {:induction false} RfcRuns(todo: seq<string>, kept: seq<string>)
    requires Clean(todo, '/') && Clean(kept, '/')
    ensures Rfc(Slashed(todo), Slashed(kept)) == Slashed(RfcSegments(kept, todo))
    decreases |todo|
  {
    if todo == [] {
      assert kept + [] == kept;
    } else {
      var x, rest := todo[0], todo[1..];
      var next := Push(kept, x, 0);
      SlashedStarts(rest);
      FirstSegment(x, Slashed(rest));
      KeptFirst(kept, todo, 0);
      RfcStep(x, Slashed(rest), kept);
      if rest == [] && IsDot(x) {
        SlashedMore(next, "");
        assert "/" + "" == "/";
      } else {
        RfcRuns(rest, next);
      }
    }
  }

  /** One segment of the input consumed. */
  lemma {:induction false} RfcStep(x: string, rest: string, kept: seq<string>)
    requires '/' !in x && (rest == "" || rest[0] == '/') && Clean(kept, '/')
    ensures Rfc("/" + x + rest, Slashed(kept))
            == if rest == "" && IsDot(x) then Slashed(Push(kept, x, 0)) + "/" else Rfc(rest, Slashed(Push(kept, x, 0)))
  {
    var s := "/" + x + rest;
    FirstSegment(x, rest);
    PopIsRemoveLast(kept);
    LoneSlash(Slashed(Push(kept, x, 0)));
    if IsDot(x) {
      assert s[1 + |x|..] == rest;
    } else {
      SlashedMore(kept, x);
    }
  }

  /**
   Exactly when the code agrees with section 5.2.4 on a rooted path: always, unless
   the path ends in a dot segment while the last segment kept before it is empty.
   */
  lemma {:induction false} AgreesWithRfcExactly(raw: string)
    requires raw != "" && raw[0] == '/'
    ensures var segments := SplitOn(raw, '/'); var kept := Kept([], segments, 1);
            RemoveDotSegments(raw) == Rfc(raw, "")
            <==> !(IsDot(segments[|segments| - 1]) && |kept| > 1 && kept[|kept| - 1] == "")
  {
    var segments := SplitOn(raw, '/');
    RootedSplit(raw);
    var todo := segments[1..];
    var kept, dot := Kept([], todo, 0), IsDot(todo[|todo| - 1]);
    AboveRoot(todo);
    assert segments[|segments| - 1] == todo[|todo| - 1];
    assert kept != [] ==> ([""] + kept)[|kept|] == kept[|kept| - 1];
    hide Kept, SplitOn, Rfc, IsDot, Normal;
    SlashedIsJoined(todo);
    RfcRuns(todo, []);
    NormalOfRooted(todo);
    var n := if kept == [] then [""] else if dot && kept[|kept| - 1] != "" then kept + [""] else kept;
    SlashedIsJoined(n);
    CompareSlashed(kept, dot);
    assert kept + [] == kept;
  }

  lemma {:induction false} RootedSplit(raw: string)
    requires raw != "" && raw[0] == '/'
    ensures var segments := SplitOn(raw, '/');
            && |segments| > 1 && segments == [""] + segments[1..] && Clean(segments[1..], '/')
            && raw == JoinWith(segments, '/')
  {
    JoinInvertsSplit(raw, '/');
  }

  /** The two results for given kept segments. */
  lemma {:induction false} CompareSlashed(kept: seq<string>, dot: bool)
    requires kept == [] ==> dot
    ensures var n := if kept == [] then [""] else if dot && kept[|kept| - 1] != "" then kept + [""] else kept;
            Slashed(n) == Slashed(kept + if dot then [""] else []) <==> !(dot && kept != [] && kept[|kept| - 1] == "")
  {
    assert kept + [] == kept;
    assert kept == [] ==> kept + [""] == [""];
    if dot && kept != [] && kept[|kept| - 1] == "" {
      SlashedMore(kept, "");
    }
  }

  /** A leading empty segment stays at the bottom of the kept ones. */
  lemma {:induction false} AboveRoot(todo: seq<string>)
    ensures Kept([], [""] + todo, 1) == [""] + Kept([], todo, 0)
  {
    var all := [""] + todo;
    if todo == [] {
      assert all[..0] == [];
    } else {
      assert all[..|all| - 1] == [""] + todo[..|todo| - 1];
      AboveRoot(todo[..|todo| - 1]);
    }
  }

  lemma {:induction false} NothingKeptIsDot(todo: seq<string>)
    requires todo != []
    ensures Kept([], todo, 0) == [] ==> IsDot(todo[|todo| - 1])
  {
  }

  lemma {:induction false} NormalOfRooted(todo: seq<string>)
    requires todo != []
    ensures var kept, dot := Kept([], todo, 0), IsDot(todo[|todo| - 1]);
            && (kept == [] ==> dot)
            && Normal([""] + todo)
               == [""] + (if kept == [] then [""] else if dot && kept[|kept| - 1] != "" then kept + [""] else kept)
  {
    hide Kept, IsDot;
    AboveRoot(todo);
    NothingKeptIsDot(todo);
    var kept := Kept([], todo, 0);
    assert |[""] + todo| == |todo| + 1 > 1 && ([""] + todo)[|todo|] == todo[|todo| - 1];
    assert kept != [] ==> ([""] + kept)[|kept|] == kept[|kept| - 1];
    assert [""] + kept + [""] == [""] + (kept + [""]);
  }

  /** In particular wherever no segment but the last is empty. */
  lemma {:induction false} AgreesWithoutEmptySegments(raw: string)
    requires raw != "" && raw[0] == '/'
    requires var segments := SplitOn(raw, '/'); forall i | 0 < i < |segments| - 1 :: segments[i] != ""
    ensures RemoveDotSegments(raw) == Rfc(raw, "")
  {
    AgreesWithRfcExactly(raw);
    RootedSplit(raw);
    var segments := SplitOn(raw, '/');
    hide SplitOn, Rfc, RemoveDotSegments;
    var todo := segments[1..];
    AboveRoot(todo);
    assert segments[|segments| - 1] == todo[|todo| - 1];
    if IsDot(todo[|todo| - 1]) {
      assert forall i | 0 <= i < |todo| - 1 :: todo[i] == segments[i + 1];
      NothingEmptyKept(todo);
    }
  }

  lemma {:induction false} NothingEmptyKept(todo: seq<string>)
    requires todo != [] && IsDot(todo[|todo| - 1]) && forall i | 0 <= i < |todo| - 1 :: todo[i] != ""
    ensures var kept := Kept([], [""] + todo, 1); |kept| > 1 ==> kept[|kept| - 1] != ""
  {
    AboveRoot(todo);
    var kept := Kept([], todo, 0);
    KeptFromSegments(todo, 0);
    hide Kept;
    if kept != [] {
      assert kept[|kept| - 1] in todo;
      assert ([""] + kept)[|kept|] == kept[|kept| - 1];
    }
  }

  /** The whole family "…//." fails: for "/a//." the code gives "/a/", the algorithm "/a//". */
  lemma {:induction false} DiffersOnEmptySegment(before: string)
    requires before != "" && before[0] == '/'
    ensures RemoveDotSegments(before + "//.") != Rfc(before + "//.", "")
  {
    var segments, raw := SplitOn(before, '/'), before + "//.";
    JoinInvertsSplit(before, '/');
    RootedSplit(before);
    var all := segments + [""] + ["."];
    JoinAppend(segments, [""], '/');
    JoinAppend(segments + [""], ["."], '/');
    assert raw == before + ['/'] + "" + ['/'] + ".";
    SplitInvertsJoin(all, '/');
    hide SplitOn, Rfc, RemoveDotSegments, JoinWith;
    AboveRoot(segments[1..]);
    assert all[..|all| - 1] == segments + [""] && (segments + [""])[..|segments|] == segments;
    AgreesWithRfcExactly(raw);
  }
}
