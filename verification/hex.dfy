/**
 Upper-case hexadecimal text of received bytes, as produced by the
 `"%02X"` conversion: two digits per byte, most significant nibble first,
 no separators. `Decode` is the reading side, used to state the round trip.
 */
module Hex {
  import opened Common

  predicate IsHexDigit(c: char) {
    '0' <= c <= '9' || 'A' <= c <= 'F'
  }

  /** The digit for a nibble value. */
  function Digit(n: int): (c: char)
    requires 0 <= n < 16
    ensures IsHexDigit(c)
  {
    if n < 10 then ('0' as int + n) as char else ('A' as int + n - 10) as char
  }

  /** The nibble value of a digit; `None` for anything `"%02X"` never writes. */
  function Value(c: char): (r: Option<int>)
    ensures r.Some? <==> IsHexDigit(c)
    ensures r.Some? ==> 0 <= r.value < 16
  {
    if '0' <= c <= '9' then Some(c as int - '0' as int)
    else if 'A' <= c <= 'F' then Some(c as int - 'A' as int + 10)
    else None
  }

  /** A digit is written back as itself: `Value` inverts `Digit`. */
  lemma DigitOfValue(c: char)
    requires Value(c).Some?
    ensures Digit(Value(c).value) == c
  {
  }

  lemma ValueOfDigit(n: int)
    requires 0 <= n < 16
    ensures Value(Digit(n)) == Some(n)
  {
  }

  /** `"%02X"` applied to one byte. */
  function Byte(b: uint8): (s: string)
    ensures |s| == 2
  {
    [Digit(b / 16), Digit(b % 16)]
  }

  /** The text of `data`: two digits per byte, in byte order. */
  function Encode(data: seq<uint8>): (s: string)
    ensures |s| == 2 * |data|
  {
    if |data| == 0 then [] else Byte(data[0]) + Encode(data[1..])
  }

  /** The text holds upper-case hex digits only: no separators, no terminator. */
  lemma {:induction false} EncodeIsHex(data: seq<uint8>)
    ensures forall i :: 0 <= i < |Encode(data)| ==> IsHexDigit(Encode(data)[i])
  {
    if |data| > 0 {
      EncodeIsHex(data[1..]);
      assert Encode(data) == Byte(data[0]) + Encode(data[1..]);
    }
  }

  /** Byte `i` of `data` is written at positions `2i` and `2i + 1`, high
      nibble first. */
  lemma {:induction false} EncodeAt(data: seq<uint8>, i: nat)
    requires i < |data|
    ensures Encode(data)[2 * i] == Digit(data[i] / 16)
    ensures Encode(data)[2 * i + 1] == Digit(data[i] % 16)
  {
    if i > 0 {
      EncodeAt(data[1..], i - 1);
    }
  }

  lemma {:induction false} EncodeAppend(a: seq<uint8>, b: seq<uint8>)
    ensures Encode(a + b) == Encode(a) + Encode(b)
  {
    if |a| == 0 {
      assert a + b == b;
    } else {
      assert (a + b)[0] == a[0];
      assert (a + b)[1..] == a[1..] + b;
      EncodeAppend(a[1..], b);
    }
  }

  /** Reads the text back into bytes; `None` on odd length or a non-digit. */
  function Decode(s: string): (r: Option<seq<uint8>>)
    ensures r.Some? ==> |s| == 2 * |r.value|
  {
    if |s| == 0 then Some([])
    else if |s| == 1 then None
    else if Value(s[0]).None? || Value(s[1]).None? then None
    else
      match Decode(s[2..])
      case None => None
      case Some(rest) => Some([Value(s[0]).value * 16 + Value(s[1]).value] + rest)
  }

  /** Reading back the text of `data` gives `data`. */
  lemma {:induction false} DecodeEncode(data: seq<uint8>)
    ensures Decode(Encode(data)) == Some(data)
  {
    if |data| > 0 {
      assert Encode(data) == Byte(data[0]) + Encode(data[1..]);
      DecodeByte(data[0], Encode(data[1..]));
      DecodeEncode(data[1..]);
      assert data == [data[0]] + data[1..];
    }
  }

  /** The two digits of a byte read back as that byte, ahead of the rest. */
  lemma DecodeByte(b: uint8, rest: string)
    ensures Decode(Byte(b) + rest)
            == if Decode(rest).Some? then Some([b] + Decode(rest).value) else None
  {
    var s := Byte(b) + rest;
    var hi, lo := b / 16, b % 16;
    assert s[0] == Digit(hi) && s[1] == Digit(lo) && s[2..] == rest;
    ValueOfDigit(hi);
    ValueOfDigit(lo);
    Nibbles(b);
    assert Value(s[0]) == Some(hi) && Value(s[1]) == Some(lo) && Decode(s[2..]) == Decode(rest);
    if Decode(rest).Some? {
      assert Decode(s) == Some([hi * 16 + lo] + Decode(rest).value);
    }
  }

  lemma Nibbles(b: uint8)
    ensures 0 <= b / 16 < 16 && 0 <= b % 16 < 16 && (b / 16) * 16 + b % 16 == b
  {
  }

  /** Every text that reads back is the text of what it reads back to:
      the encoding is canonical (upper case, no separators). */
  lemma {:induction false} EncodeDecode(s: string)
    requires Decode(s).Some?
    ensures Encode(Decode(s).value) == s
  {
    if |s| >= 2 {
      var hi, lo := Value(s[0]).value, Value(s[1]).value;
      var rest := Decode(s[2..]).value;
      EncodeDecode(s[2..]);
      var b: uint8 := hi * 16 + lo;
      assert b / 16 == hi && b % 16 == lo;
      DigitOfValue(s[0]);
      DigitOfValue(s[1]);
      assert Decode(s).value == [b] + rest;
      assert ([b] + rest)[1..] == rest;
      assert s == s[..2] + s[2..];
    }
  }
}
