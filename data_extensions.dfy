/** The byte buffer (`Data`) and its `appendString` extension, which appends a
    string's UTF-8 encoding (DataExtensions.swift). */
module DataExtensions {

  import opened Components

  newtype byte = b: int | 0 <= b < 0x100

  /** The UTF-8 encoding of one Unicode scalar value (RFC 3629, section 3). */
  function EncodeScalar(c: char): (r: seq<byte>)
    ensures 1 <= |r| <= 4
  {
    var n := c as int;
    if n < 0x80 then
      [n as byte]
    else if n < 0x800 then
      [(0xC0 + n / 0x40) as byte, (0x80 + n % 0x40) as byte]
    else if n < 0x1_0000 then
      [(0xE0 + n / 0x1000) as byte, (0x80 + n / 0x40 % 0x40) as byte, (0x80 + n % 0x40) as byte]
    else
      [(0xF0 + n / 0x4_0000) as byte, (0x80 + n / 0x1000 % 0x40) as byte,
       (0x80 + n / 0x40 % 0x40) as byte, (0x80 + n % 0x40) as byte]
  }

  /** The UTF-8 encoding of a string. */
  function Utf8(s: string): seq<byte> {
    if s == [] then [] else EncodeScalar(s[0]) + Utf8(s[1..])
  }

  /** Every character takes one to four bytes. */
  lemma {:induction false} Utf8Length(s: string)
    ensures |s| <= |Utf8(s)| <= 4 * |s|
  {
    if s != [] {
      Utf8Length(s[1..]);
    }
  }

  /** Encoding distributes over concatenation, so appending the pieces of a
      string one after the other yields the encoding of the whole. */
  lemma {:induction false} Utf8Append(a: string, b: string)
    ensures Utf8(a + b) == Utf8(a) + Utf8(b)
  {
    if a == [] {
      assert a + b == b;
    } else {
      assert (a + b)[0] == a[0];
      assert (a + b)[1..] == a[1..] + b;
      Utf8Append(a[1..], b);
    }
  }

  /** Characters below U+0080 encode as their own code, one byte each. */
  lemma {:induction false} Utf8Ascii(s: string)
    requires forall i :: 0 <= i < |s| ==> s[i] as int < 0x80
    ensures |Utf8(s)| == |s|
    ensures forall i :: 0 <= i < |s| ==> Utf8(s)[i] as int == s[i] as int
  {
    if s != [] {
      Utf8Ascii(s[1..]);
    }
  }

  /** How many bytes a sequence starting with `lead` takes; 0 if `lead` cannot start one. */
  function SequenceLength(lead: byte): nat {
    if lead < 0x80 then 1
    else if 0xC0 <= lead < 0xE0 then 2
    else if 0xE0 <= lead < 0xF0 then 3
    else if 0xF0 <= lead < 0xF8 then 4
    else 0
  }

  predicate IsContinuation(b: byte) {
    0x80 <= b < 0xC0
  }

  predicate IsScalarValue(n: int) {
    0 <= n < 0xD800 || 0xE000 <= n < 0x11_0000
  }

  /** The smallest code point that needs `len` bytes; a sequence of that
      length standing for a smaller one is overlong (RFC 3629, section 3). */
  function LeastOfLength(len: nat): int {
    if len <= 1 then 0 else if len == 2 then 0x80 else if len == 3 then 0x800 else 0x1_0000
  }

  /** The code point a whole UTF-8 sequence stands for, if it stands for one
      and is written in the shortest form. */
  function DecodeScalar(bs: seq<byte>): Option<char>
    requires 1 <= |bs| <= 4 && SequenceLength(bs[0]) == |bs|
  {
    if exists i :: 1 <= i < |bs| && !IsContinuation(bs[i]) then None
    else
      var n :=
        if |bs| == 1 then bs[0] as int
        else if |bs| == 2 then (bs[0] as int - 0xC0) * 0x40 + (bs[1] as int - 0x80)
        else if |bs| == 3 then
          (bs[0] as int - 0xE0) * 0x1000 + (bs[1] as int - 0x80) * 0x40 + (bs[2] as int - 0x80)
        else
          (bs[0] as int - 0xF0) * 0x4_0000 + (bs[1] as int - 0x80) * 0x1000
          + (bs[2] as int - 0x80) * 0x40 + (bs[3] as int - 0x80);
      if IsScalarValue(n) && LeastOfLength(|bs|) <= n then Some(n as char) else None
  }

  /** Overlong sequences are refused: NUL written in two bytes does not decode. */
  lemma DecodeRejectsOverlong()
    ensures DecodeScalar([0xC0, 0x80]) == None
    ensures DecodeScalar([0xE0, 0x80, 0xAF]) == None
    ensures DecodeScalar([0xF0, 0x80, 0x80, 0xAF]) == None
  {
  }

  /** Reads UTF-8 bytes back into a string. */
  function Utf8Decode(bs: seq<byte>): Option<string>
    decreases |bs|
  {
    if bs == [] then Some([])
    else
      var len := SequenceLength(bs[0]);
      if len == 0 || |bs| < len then None
      else match DecodeScalar(bs[..len])
        case None => None
        case Some(c) =>
          match Utf8Decode(bs[len..])
          case None => None
          case Some(rest) => Some([c] + rest)
  }

  /** Splits a code point into 6-bit groups. */
  lemma SixBitGroups(n: int)
    requires 0 <= n
    ensures n == n / 0x40 * 0x40 + n % 0x40
    ensures n / 0x40 == n / 0x1000 * 0x40 + n / 0x40 % 0x40
    ensures n / 0x1000 == n / 0x4_0000 * 0x40 + n / 0x1000 % 0x40
  {
  }

  /** Decoding undoes the encoding of one scalar value. */
  lemma DecodeEncodeScalar(c: char)
    ensures SequenceLength(EncodeScalar(c)[0]) == |EncodeScalar(c)|
    ensures DecodeScalar(EncodeScalar(c)) == Some(c)
  {
    var n := c as int;
    SixBitGroups(n);
  }

  /** Each character has one valid encoding: any sequence that decodes to it
      is the sequence `EncodeScalar` produces. */
  lemma DecodeScalarUnique(bs: seq<byte>, c: char)
    requires 1 <= |bs| <= 4 && SequenceLength(bs[0]) == |bs|
    requires DecodeScalar(bs) == Some(c)
    ensures bs == EncodeScalar(c)
  {
    var n := c as int;
    SixBitGroups(n);
    assert forall i :: 1 <= i < |bs| ==> IsContinuation(bs[i]);
    if |bs| == 2 {
      DigitsOf(n, bs[0] as int - 0xC0, bs[1] as int - 0x80);
    } else if |bs| == 3 {
      var hi := (bs[0] as int - 0xE0) * 0x40 + (bs[1] as int - 0x80);
      DigitsOf(n, hi, bs[2] as int - 0x80);
      DigitsOf(hi, bs[0] as int - 0xE0, bs[1] as int - 0x80);
    } else if |bs| == 4 {
      var top := (bs[0] as int - 0xF0) * 0x40 + (bs[1] as int - 0x80);
      var hi := top * 0x40 + (bs[2] as int - 0x80);
      DigitsOf(n, hi, bs[3] as int - 0x80);
      DigitsOf(hi, top, bs[2] as int - 0x80);
      DigitsOf(top, bs[0] as int - 0xF0, bs[1] as int - 0x80);
    }
  }

  /** A number written with a last base-64 digit gives that digit back. */
  lemma DigitsOf(n: int, q: int, r: int)
    requires 0 <= q && 0 <= r < 0x40 && n == q * 0x40 + r
    ensures n / 0x40 == q && n % 0x40 == r
  {
  }

  /** Decoding undoes the encoding: no information is lost when a string is appended. */
  lemma {:induction false} Utf8RoundTrip(s: string)
    ensures Utf8Decode(Utf8(s)) == Some(s)
  {
    if s != [] {
      var head := EncodeScalar(s[0]);
      var bs := Utf8(s);
      DecodeEncodeScalar(s[0]);
      assert bs[..|head|] == head;
      assert bs[|head|..] == Utf8(s[1..]);
      Utf8RoundTrip(s[1..]);
      assert [s[0]] + s[1..] == s;
    }
  }

  /** Strings with the same encoding are equal. */
  lemma Utf8Injective(a: string, b: string)
    requires Utf8(a) == Utf8(b)
    ensures a == b
  {
    Utf8RoundTrip(a);
    Utf8RoundTrip(b);
  }

  /** A growable byte buffer (`Data`), updated in place. */
  class Data {
    var bytes: seq<byte>

    constructor ()
      ensures bytes == []
    {
      bytes := [];
    }

    /** `appendString(string:)`: appends the UTF-8 encoding of `s`. Encoding a
        Swift string to UTF-8 never fails, so the early return in the source
        is not reachable. */
    method AppendString(s: string)
      modifies this
      ensures bytes == old(bytes) + Utf8(s)
      ensures |bytes| == |old(bytes)| + |Utf8(s)|
      ensures bytes[..|old(bytes)|] == old(bytes)
      ensures s == [] ==> bytes == old(bytes)
    {
      bytes := bytes + Utf8(s);
    }

    /** Foundation's `append(_:)`: appends raw bytes. */
    method Append(other: seq<byte>)
      modifies this
      ensures bytes == old(bytes) + other
    {
      bytes := bytes + other;
    }
  }
}
