/**
 The unpadded URL alphabet of section 5 of RFC 4648, with the decoder's leniency:
 it skips line breaks and ignores the unused low bits of a final group.
 */
module Base64 {
  import opened Options
  import opened Bytes

  type Sextet = n: nat | n < 64

  function Letter(n: Sextet): char {
    if n < 26 then ('A' as int + n) as char
    else if n < 52 then ('a' as int + n - 26) as char
    else if n < 62 then ('0' as int + n - 52) as char
    else if n == 62 then '-' else '_'
  }

  function Digit(c: char): Option<Sextet> {
    if 'A' <= c <= 'Z' then Some(c as int - 'A' as int)
    else if 'a' <= c <= 'z' then Some(c as int - 'a' as int + 26)
    else if '0' <= c <= '9' then Some(c as int - '0' as int + 52)
    else if c == '-' then Some(62)
    else if c == '_' then Some(63)
    else None
  }

  lemma {:induction false} LettersAreDigits(n: Sextet)
    ensures Digit(Letter(n)) == Some(n) && Letter(n) !in "\r\n"
  {
  }

  /** One, two or three bytes as two, three or four letters. */
  function Group(bytes: seq<Byte>): string
    requires 1 <= |bytes| <= 3
  {
    var a := bytes[0];
    if |bytes| == 1 then [Letter(a / 4), Letter(a % 4 * 16)]
    else
      var b := bytes[1];
      if |bytes| == 2 then [Letter(a / 4), Letter(a % 4 * 16 + b / 16), Letter(b % 16 * 4)]
      else
        var c := bytes[2];
        [Letter(a / 4), Letter(a % 4 * 16 + b / 16), Letter(b % 16 * 4 + c / 64), Letter(c % 64)]
  }

  function Encode(bytes: seq<Byte>): string {
    if bytes == [] then ""
    else if |bytes| <= 3 then Group(bytes)
    else Group(bytes[..3]) + Encode(bytes[3..])
  }

  /** The three bytes of four digits. */
  function First(a: Sextet, b: Sextet): Byte {
    var x: int, y: int := a, b;
    x * 4 + y / 16
  }

  function Second(b: Sextet, c: Sextet): Byte {
    var x: int, y: int := b, c;
    x % 16 * 16 + y / 4
  }

  function Third(c: Sextet, d: Sextet): Byte {
    var x: int, y: int := c, d;
    x % 4 * 64 + y
  }

  /** What a group of two to four digits holds. */
  function Ungroup(d: seq<Sextet>): seq<Byte>
    requires 2 <= |d| <= 4
  {
    if |d| == 2 then [First(d[0], d[1])]
    else if |d| == 3 then [First(d[0], d[1]), Second(d[1], d[2])]
    else [First(d[0], d[1]), Second(d[1], d[2]), Third(d[2], d[3])]
  }

  function Digits(s: string): Option<seq<Sextet>> {
    if s == "" then Some([])
    else
      var d, rest := Digit(s[0]), Digits(s[1..]);
      if d.Some? && rest.Some? then Some([d.value] + rest.value) else None
  }

  function FromDigits(d: seq<Sextet>): Option<seq<Byte>> {
    if d == [] then Some([])
    else if |d| == 1 then None
    else if |d| <= 4 then Some(Ungroup(d))
    else match FromDigits(d[4..])
      case Some(rest) => Some(Ungroup(d[..4]) + rest)
      case None => None
  }

  function WithoutBreaks(s: string): string {
    if s == "" then "" else (if s[0] in "\r\n" then "" else [s[0]]) + WithoutBreaks(s[1..])
  }

  function Decode(s: string): Option<seq<Byte>> {
    match Digits(WithoutBreaks(s))
    case Some(d) => FromDigits(d)
    case None => None
  }

  /** The digits behind an encoding. */
  function GroupDigits(bytes: seq<Byte>): (d: seq<Sextet>)
    requires 1 <= |bytes| <= 3
    ensures |d| == |bytes| + 1
  {
    var a := bytes[0];
    if |bytes| == 1 then [a / 4, a % 4 * 16]
    else
      var b := bytes[1];
      if |bytes| == 2 then [a / 4, a % 4 * 16 + b / 16, b % 16 * 4]
      else [a / 4, a % 4 * 16 + b / 16, b % 16 * 4 + bytes[2] / 64, bytes[2] % 64]
  }

  function ToDigits(bytes: seq<Byte>): seq<Sextet> {
    if bytes == [] then []
    else if |bytes| <= 3 then GroupDigits(bytes)
    else GroupDigits(bytes[..3]) + ToDigits(bytes[3..])
  }

  function Letters(d: seq<Sextet>): (s: string)
    ensures |s| == |d|
  {
    seq(|d|, i requires 0 <= i < |d| => Letter(d[i]))
  }

  lemma {:induction false} GroupIsLetters(bytes: seq<Byte>)
    requires 1 <= |bytes| <= 3
    ensures Group(bytes) == Letters(GroupDigits(bytes))
  {
  }

  lemma {:induction false} EncodeIsLetters(bytes: seq<Byte>)
    ensures Encode(bytes) == Letters(ToDigits(bytes)) && |Encode(bytes)| == (|bytes| * 4 + 2) / 3
  {
    hide Group, GroupDigits, Letter;
    if |bytes| > 3 {
      EncodeIsLetters(bytes[3..]);
      GroupIsLetters(bytes[..3]);
    } else if bytes != [] {
      GroupIsLetters(bytes);
    }
  }

  lemma {:induction false} LettersRead(d: seq<Sextet>)
    ensures WithoutBreaks(Letters(d)) == Letters(d) && Digits(Letters(d)) == Some(d)
  {
    if d != [] {
      LettersAreDigits(d[0]);
      assert Letters(d)[1..] == Letters(d[1..]);
      LettersRead(d[1..]);
      assert d == [d[0]] + d[1..];
    }
  }

  lemma {:induction false} BytesInvert(a: Byte, b: Byte, c: Byte)
    ensures First(a / 4, a % 4 * 16) == a
    ensures First(a / 4, a % 4 * 16 + b / 16) == a
    ensures Second(a % 4 * 16 + b / 16, b % 16 * 4) == b
    ensures Second(a % 4 * 16 + b / 16, b % 16 * 4 + c / 64) == b
    ensures Third(b % 16 * 4 + c / 64, c % 64) == c
  {
  }

  lemma {:induction false} UngroupInverts(bytes: seq<Byte>)
    requires 1 <= |bytes| <= 3
    ensures Ungroup(GroupDigits(bytes)) == bytes
  {
    hide First, Second, Third;
    BytesInvert(bytes[0], if |bytes| > 1 then bytes[1] else 0, if |bytes| > 2 then bytes[2] else 0);
  }

  lemma {:induction false} DigitsInvert(bytes: seq<Byte>)
    ensures FromDigits(ToDigits(bytes)) == Some(bytes)
  {
    if |bytes| > 3 {
      DigitsInvert(bytes[3..]);
      UngroupInverts(bytes[..3]);
      var d := ToDigits(bytes);
      assert d[..4] == GroupDigits(bytes[..3]) && d[4..] == ToDigits(bytes[3..]);
      assert |ToDigits(bytes[3..])| > 0;
      assert bytes == bytes[..3] + bytes[3..];
    } else if bytes != [] {
      UngroupInverts(bytes);
    }
  }

  /** Decoding inverts encoding. */
  lemma {:induction false} RoundTrip(bytes: seq<Byte>)
    ensures Decode(Encode(bytes)) == Some(bytes)
  {
    EncodeIsLetters(bytes);
    LettersRead(ToDigits(bytes));
    DigitsInvert(bytes);
  }

  /** Decoding alone is not injective: the last letter's low bits are ignored, and so are line breaks. */
  lemma {:induction false} DecodeIsLenient()
    ensures Decode("AA") == Decode("AB") == Decode("A\nA") == Some([0])
  {
    hide WithoutBreaks, Digits, Letters, FromDigits;
    LettersRead([0, 0]);
    LettersRead([0, 1]);
    FirstLetters();
    LeniencyOfDigits();
    BreakDropped();
  }

  lemma {:induction false} FirstLetters()
    ensures Letters([0, 0]) == "AA" && Letters([0, 1]) == "AB"
  {
  }

  lemma {:induction false} LeniencyOfDigits()
    ensures FromDigits([0, 0]) == FromDigits([0, 1]) == Some([0])
  {
  }

  lemma {:induction false} BreakDropped()
    ensures WithoutBreaks("A\nA") == WithoutBreaks("AA")
  {
    OneDropped('A', "\nA");
    OneDropped('\n', "A");
    OneDropped('A', "A");
    assert ['A'] + "\nA" == "A\nA" && ['\n'] + "A" == "\nA" && ['A'] + "A" == "AA";
  }

  lemma {:induction false} OneDropped(c: char, s: string)
    ensures WithoutBreaks([c] + s) == (if c in "\r\n" then "" else [c]) + WithoutBreaks(s)
  {
    assert ([c] + s)[1..] == s;
  }
}
