/**
 Percent escapes in one form: unreserved octets unescaped, the others with
 upper-case digits (sections 6.2.2.1 and 6.2.2.2 of RFC 3986). The elements of a text
 are bytes.
 */
module Escapes {
  import opened Options

  /** A byte written as itself, or as a percent sign and two digits. */
  datatype Unit = Plain(c: char) | Escape(value: nat)

  const UPPER: string := "0123456789ABCDEF"

  function HexValue(c: char): Option<nat> {
    if '0' <= c <= '9' then Some(c as int - '0' as int)
    else if 'A' <= c <= 'F' then Some(c as int - 'A' as int + 10)
    else if 'a' <= c <= 'f' then Some(c as int - 'a' as int + 10)
    else None
  }

  predicate IsUnreserved(value: nat) {
    || 'a' as int <= value <= 'z' as int || 'A' as int <= value <= 'Z' as int || '0' as int <= value <= '9' as int
    || value == '-' as int || value == '.' as int || value == '_' as int || value == '~' as int
  }

  /** The value of two digits. */
  function Octet(high: char, low: char): Option<nat> {
    if HexValue(high).Some? && HexValue(low).Some? then Some(16 * HexValue(high).value + HexValue(low).value) else None
  }

  /** The units of a text, if every percent sign is followed by two digits. */
  function Parse(raw: string): Option<seq<Unit>> {
    if raw == "" then Some([])
    else if raw[0] != '%' then
      var rest := Parse(raw[1..]);
      if rest.Some? then Some([Plain(raw[0])] + rest.value) else None
    else if |raw| < 3 || Octet(raw[1], raw[2]).None? then None
    else
      var rest := Parse(raw[3..]);
      if rest.Some? then Some([Escape(Octet(raw[1], raw[2]).value)] + rest.value) else None
  }

  predicate IsUnit(u: Unit) {
    match u
    case Plain(c) => c != '%'
    case Escape(value) => value < 256
  }

  function Written(u: Unit): string
    requires IsUnit(u)
  {
    match u
    case Plain(c) => [c]
    case Escape(value) => ['%', UPPER[value / 16], UPPER[value % 16]]
  }

  predicate AreUnits(units: seq<Unit>) {
    forall i | 0 <= i < |units| :: IsUnit(units[i])
  }

  function Print(units: seq<Unit>): string
    requires AreUnits(units)
  {
    if units == [] then "" else Written(units[0]) + Print(units[1..])
  }

  function Normal(u: Unit): (n: Unit)
    requires IsUnit(u)
    ensures IsUnit(n)
  {
    if u.Escape? && IsUnreserved(u.value) then Plain(u.value as char) else u
  }

  function Normals(units: seq<Unit>): (n: seq<Unit>)
    requires AreUnits(units)
    ensures AreUnits(n) && |n| == |units| && forall i | 0 <= i < |n| :: n[i] == Normal(units[i])
  {
    seq(|units|, i requires 0 <= i < |units| => Normal(units[i]))
  }

  lemma {:induction false} ParsedAreUnits(raw: string)
    requires Parse(raw).Some?
    ensures AreUnits(Parse(raw).value)
  {
    if raw != "" {
      ParsedAreUnits(if raw[0] != '%' then raw[1..] else raw[3..]);
    }
  }

  function CanonicalEscapes(raw: string): Option<string> {
    var units := Parse(raw);
    if units.None? then None
    else
      ParsedAreUnits(raw);
      Some(Print(Normals(units.value)))
  }

  function Prepend(s: string, rest: Option<string>): Option<string> {
    if rest.Some? then Some(s + rest.value) else None
  }

  lemma {:induction false} PrependLaws(a: string, b: string, rest: Option<string>)
    ensures Prepend("", rest) == rest && Prepend(a + b, rest) == Prepend(a, Prepend(b, rest))
  {
    if rest.Some? {
      assert "" + rest.value == rest.value && a + b + rest.value == a + (b + rest.value);
    }
  }

  lemma {:induction false} PlainFirst(raw: string)
    requires raw != "" && raw[0] != '%'
    ensures CanonicalEscapes(raw) == Prepend([raw[0]], CanonicalEscapes(raw[1..]))
  {
    if Parse(raw).Some? {
      ParsedAreUnits(raw);
      ParsedAreUnits(raw[1..]);
      assert Normals(Parse(raw).value)[1..] == Normals(Parse(raw[1..]).value);
    }
  }

  lemma {:induction false} EscapeFirst(raw: string)
    requires |raw| >= 3 && raw[0] == '%' && Octet(raw[1], raw[2]).Some?
    ensures var value := Octet(raw[1], raw[2]).value;
            value < 256 && CanonicalEscapes(raw) == Prepend(Written(Normal(Escape(value))), CanonicalEscapes(raw[3..]))
  {
    if Parse(raw).Some? {
      ParsedAreUnits(raw);
      ParsedAreUnits(raw[3..]);
      assert Normals(Parse(raw).value)[1..] == Normals(Parse(raw[3..]).value);
    }
  }

  lemma {:induction false} EscapeWritten(value: nat)
    requires value < 256
    ensures Written(Normal(Escape(value)))
            == if IsUnreserved(value) then [value as char] else ['%', UPPER[value / 16], UPPER[value % 16]]
  {
  }

  /** The byte loop. */
  method CanonicalizeEscapes(raw: string) returns (r: Option<string>)
    ensures r == CanonicalEscapes(raw)
  {
    hide CanonicalEscapes, Parse, HexValue, Written, Normal, IsUnreserved;
    var output := "";
    var index := 0;
    assert raw[0..] == raw;
    PrependLaws("", "", CanonicalEscapes(raw));
    while index < |raw|
      invariant 0 <= index <= |raw|
      invariant CanonicalEscapes(raw) == Prepend(output, CanonicalEscapes(raw[index..]))
    {
      var rest := raw[index..];
      if raw[index] != '%' {
        PlainFirst(rest);
        assert rest[1..] == raw[index + 1..];
        PrependLaws(output, [raw[index]], CanonicalEscapes(raw[index + 1..]));
        output := output + [raw[index]];
        index := index + 1;
      } else {
        if index + 2 >= |raw| {
          BrokenEscape(rest);
          return None;
        }
        var high, low := HexValue(raw[index + 1]), HexValue(raw[index + 2]);
        if high.None? || low.None? {
          BrokenEscape(rest);
          return None;
        }
        var value := 16 * high.value + low.value;
        EscapeFirst(rest);
        assert rest[3..] == raw[index + 3..];
        EscapeWritten(value);
        PrependLaws(output, Written(Normal(Escape(value))), CanonicalEscapes(raw[index + 3..]));
        if IsUnreserved(value) {
          output := output + [value as char];
        } else {
          output := output + ['%', UPPER[value / 16], UPPER[value % 16]];
        }
        index := index + 3;
      }
    }
    EmptyForm();
    assert raw[index..] == "" && output + "" == output;
    return Some(output);
  }

  lemma {:induction false} UpperDigits(n: nat)
    requires n < 16
    ensures HexValue(UPPER[n]) == Some(n)
  {
  }

  lemma {:induction false} ParseWritten(u: Unit, rest: string)
    requires IsUnit(u) && Parse(rest).Some?
    ensures Parse(Written(u) + rest) == Some([u] + Parse(rest).value)
  {
    var s := Written(u) + rest;
    if u.Escape? {
      UpperDigits(u.value / 16);
      UpperDigits(u.value % 16);
      assert Octet(s[1], s[2]) == Some(u.value);
      assert s[3..] == rest;
      hide Octet, HexValue, Written;
      ParseEscape(s);
    } else {
      assert s[1..] == rest;
    }
  }

  lemma {:induction false} ParseEscape(s: string)
    requires |s| >= 3 && s[0] == '%' && Octet(s[1], s[2]).Some? && Parse(s[3..]).Some?
    ensures Parse(s) == Some([Escape(Octet(s[1], s[2]).value)] + Parse(s[3..]).value)
  {
  }

  /** Printed units parse back. */
  lemma {:induction false} ParsePrint(units: seq<Unit>)
    requires AreUnits(units)
    ensures Parse(Print(units)) == Some(units)
  {
    if units != [] {
      ParsePrint(units[1..]);
      hide Parse, Written;
      ParseWritten(units[0], Print(units[1..]));
      assert units == [units[0]] + units[1..];
    }
  }

  /**
   Two units stand for the same octet, and for the same purpose: a reserved octet's escape
   is not the octet itself.
   */
  predicate SameUnit(x: Unit, y: Unit) {
    match (x, y)
    case (Plain(c), Plain(d)) => c == d
    case (Escape(v), Escape(w)) => v == w
    case (Plain(c), Escape(w)) => c as int == w && IsUnreserved(w)
    case (Escape(v), Plain(d)) => v == d as int && IsUnreserved(v)
  }

  /** Texts that differ only in the case of digits and in needless escapes. */
  ghost predicate Equivalent(a: string, b: string) {
    && Parse(a).Some? && Parse(b).Some? && |Parse(a).value| == |Parse(b).value|
    && forall i | 0 <= i < |Parse(a).value| :: SameUnit(Parse(a).value[i], Parse(b).value[i])
  }

  lemma {:induction false} NormalDecides(x: Unit, y: Unit)
    requires IsUnit(x) && IsUnit(y)
    ensures Normal(x) == Normal(y) <==> SameUnit(x, y)
  {
  }

  /**
   The canonical form is a complete invariant: well-formed texts have the same form exactly
   when they are equivalent.
   */
  lemma {:induction false} SameFormExactly(a: string, b: string)
    requires Parse(a).Some? && Parse(b).Some?
    ensures CanonicalEscapes(a) == CanonicalEscapes(b) <==> Equivalent(a, b)
  {
    ParsedAreUnits(a);
    ParsedAreUnits(b);
    var m, n := Normals(Parse(a).value), Normals(Parse(b).value);
    ParsePrint(m);
    ParsePrint(n);
    if CanonicalEscapes(a) == CanonicalEscapes(b) {
      assert m == n;
      forall i | 0 <= i < |m|
        ensures SameUnit(Parse(a).value[i], Parse(b).value[i])
      {
        assert m[i] == n[i];
        NormalDecides(Parse(a).value[i], Parse(b).value[i]);
      }
    }
    if Equivalent(a, b) {
      forall i | 0 <= i < |m|
        ensures m[i] == n[i]
      {
        NormalDecides(Parse(a).value[i], Parse(b).value[i]);
      }
      assert m == n;
    }
  }

  /** A canonical text is its own canonical form, and equivalent to what it was made from. */
  lemma {:induction false} FormIsFixed(raw: string)
    requires CanonicalEscapes(raw).Some?
    ensures CanonicalEscapes(CanonicalEscapes(raw).value) == CanonicalEscapes(raw)
    ensures Equivalent(raw, CanonicalEscapes(raw).value)
  {
    ParsedAreUnits(raw);
    var n := Normals(Parse(raw).value);
    ParsePrint(n);
    forall i | 0 <= i < |n|
      ensures Normal(n[i]) == n[i]
    {
    }
    assert Normals(n) == n;
    SameFormExactly(raw, CanonicalEscapes(raw).value);
  }

  // ---- Across a separator ----

  predicate IsCanonical(s: string) {
    CanonicalEscapes(s) == Some(s)
  }

  /** No escape reaches across a slash. */
  lemma {:induction false} AcrossSlash(a: string, b: string)
    ensures CanonicalEscapes(a + "/" + b)
            == (if CanonicalEscapes(a).Some? && CanonicalEscapes(b).Some?
                then Some(CanonicalEscapes(a).value + "/" + CanonicalEscapes(b).value) else None)
    decreases |a|
  {
    var s := a + "/" + b;
    hide CanonicalEscapes, Parse;
    if a == "" {
      assert s == "/" + b && s[1..] == b;
      PlainFirst(s);
      EmptyForm();
    } else if a[0] != '%' {
      assert s[1..] == a[1..] + "/" + b;
      PlainFirst(s);
      PlainFirst(a);
      AcrossSlash(a[1..], b);
      if CanonicalEscapes(a[1..]).Some? && CanonicalEscapes(b).Some? {
        Associate([a[0]], CanonicalEscapes(a[1..]), CanonicalEscapes(b));
      }
    } else {
      if |a| >= 3 && Octet(a[1], a[2]).Some? {
        assert s[1] == a[1] && s[2] == a[2] && s[3..] == a[3..] + "/" + b;
        EscapeFirst(s);
        EscapeFirst(a);
        AcrossSlash(a[3..], b);
        if CanonicalEscapes(a[3..]).Some? && CanonicalEscapes(b).Some? {
          Associate(Written(Normal(Escape(Octet(a[1], a[2]).value))), CanonicalEscapes(a[3..]), CanonicalEscapes(b));
        }
      } else {
        assert |a| < 3 ==> s[|a|] == '/';
        assert |a| >= 3 ==> s[1] == a[1] && s[2] == a[2];
        BrokenEscape(a);
        BrokenEscape(s);
      }
    }
  }

  lemma {:induction false} Associate(a: string, x: Option<string>, y: Option<string>)
    requires x.Some? && y.Some?
    ensures a + (x.value + "/" + y.value) == (a + x.value) + "/" + y.value
  {
  }

  lemma {:induction false} EmptyForm()
    ensures CanonicalEscapes("") == Some("")
  {
  }

  lemma {:induction false} BrokenEscape(s: string)
    requires s != "" && s[0] == '%' && (|s| < 3 || Octet(s[1], s[2]).None?)
    ensures CanonicalEscapes(s).None?
  {
  }

  lemma {:induction false} FormIsNoLonger(raw: string)
    requires CanonicalEscapes(raw).Some?
    ensures |CanonicalEscapes(raw).value| <= |raw|
    decreases |raw|
  {
    if raw != "" {
      if raw[0] != '%' {
        PlainFirst(raw);
        FormIsNoLonger(raw[1..]);
      } else {
        EscapeFirst(raw);
        FormIsNoLonger(raw[3..]);
      }
    }
  }

  /** A text is canonical exactly when both its parts at a slash are. */
  lemma {:induction false} CanonicalAcrossSlash(a: string, b: string)
    ensures IsCanonical(a + "/" + b) <==> IsCanonical(a) && IsCanonical(b)
  {
    AcrossSlash(a, b);
    if IsCanonical(a + "/" + b) {
      FormIsNoLonger(a);
      FormIsNoLonger(b);
      var x, y := CanonicalEscapes(a).value, CanonicalEscapes(b).value;
      assert (x + "/" + y)[..|a|] == (a + "/" + b)[..|a|] == a && (x + "/" + y)[..|x|] == x;
      assert (x + "/" + y)[|x| + 1..] == y && (a + "/" + b)[|a| + 1..] == b;
    }
  }
}
