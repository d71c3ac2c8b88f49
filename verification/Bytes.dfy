/** Bytes, and integers laid out with the most significant byte first. */
module Bytes {
  type Byte = b: nat | b < 256

  function Power(width: nat): nat {
    if width == 0 then 1 else 256 * Power(width - 1)
  }

  /** The `width` low bytes of `n`. */
  function BigEndian(n: nat, width: nat): (s: seq<Byte>)
    ensures |s| == width
  {
    if width == 0 then [] else BigEndian(n / 256, width - 1) + [n % 256]
  }

  function Value(bytes: seq<Byte>): nat {
    if bytes == [] then 0 else 256 * Value(bytes[..|bytes| - 1]) + bytes[|bytes| - 1]
  }

  lemma {:induction false} ReadsBack(n: nat, width: nat)
    requires n < Power(width)
    ensures Value(BigEndian(n, width)) == n
  {
    if width > 0 {
      ReadsBack(n / 256, width - 1);
      assert BigEndian(n, width)[..width - 1] == BigEndian(n / 256, width - 1);
    }
  }

  lemma {:induction false} WritesBack(bytes: seq<Byte>)
    ensures BigEndian(Value(bytes), |bytes|) == bytes && Value(bytes) < Power(|bytes|)
  {
    if bytes != [] {
      var init, last := bytes[..|bytes| - 1], bytes[|bytes| - 1];
      WritesBack(init);
      assert Value(bytes) / 256 == Value(init) && Value(bytes) % 256 == last;
      assert bytes == init + [last];
    }
  }

  lemma {:induction false} Powers()
    ensures Power(4) == 0x1_0000_0000 && Power(8) == 0x1_0000_0000_0000_0000
  {
    assert Power(1) == 256 && Power(2) == 0x1_0000 && Power(3) == 0x100_0000;
    assert Power(5) == 0x100_0000_0000 && Power(6) == 0x1_0000_0000_0000 && Power(7) == 0x100_0000_0000_0000;
  }

  const TWO_63: int := 0x8000_0000_0000_0000
  const TWO_64: int := 0x1_0000_0000_0000_0000

  /** The conversions between signed and unsigned 64-bit integers. */
  function ToUnsigned(n: int): (u: nat)
    requires -TWO_63 <= n < TWO_63
    ensures u < TWO_64
  {
    if n < 0 then n + TWO_64 else n
  }

  function ToSigned(u: nat): (n: int)
    requires u < TWO_64
    ensures -TWO_63 <= n < TWO_63 && ToUnsigned(n) == u
  {
    if u < TWO_63 then u else u - TWO_64
  }

  /** Writes the `width` low bytes of `n` at `offset`. */
  method Put(record: array<Byte>, offset: nat, width: nat, n: nat)
    requires offset + width <= record.Length
    modifies record
    ensures record[..] == old(record[..offset]) + BigEndian(n, width) + old(record[offset + width..])
  {
    var rest: nat, i: nat := n, width;
    while i > 0
      invariant i <= width
      invariant record[..offset + i] == old(record[..offset + i])
      invariant BigEndian(n, width) == BigEndian(rest, i) + record[offset + i..offset + width]
      invariant record[offset + width..] == old(record[offset + width..])
    {
      i := i - 1;
      record[offset + i] := rest % 256;
      assert record[offset + i..offset + width] == [rest % 256] + record[offset + i + 1..offset + width];
      rest := rest / 256;
    }
    assert record[..] == record[..offset] + record[offset..offset + width] + record[offset + width..];
  }

  /** Writes `bytes` at `offset`. */
  method Copy(record: array<Byte>, offset: nat, bytes: seq<Byte>)
    requires offset + |bytes| <= record.Length
    modifies record
    ensures record[..] == old(record[..offset]) + bytes + old(record[offset + |bytes|..])
  {
    for i := 0 to |bytes|
      invariant record[..offset] == old(record[..offset])
      invariant record[offset..offset + i] == bytes[..i]
      invariant record[offset + i..] == old(record[offset + i..])
    {
      record[offset + i] := bytes[i];
    }
    assert record[..] == record[..offset] + record[offset..offset + |bytes|] + record[offset + |bytes|..];
  }
}
