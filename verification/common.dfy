/**
 Fixed-width integer ranges of the firmware's C types, and the optional
 value used by the parsers that serve as partners of the formatters.
 */
module Common {

  /** C `uint8_t`. */
  type uint8 = x: int | 0 <= x < 0x100

  /** C `int8_t`. */
  type int8 = x: int | -0x80 <= x < 0x80

  /** C `int16_t`. */
  type int16 = x: int | -0x8000 <= x < 0x8000

  /** The conventional Some/None datatype. */
  datatype Option<+T> = None | Some(value: T)

  /** Number of elements of `s` that satisfy `p`. */
  function Count<T>(s: seq<T>, p: T -> bool): (n: nat)
    ensures n <= |s|
  {
    if |s| == 0 then 0 else (if p(s[0]) then 1 else 0) + Count(s[1..], p)
  }

  lemma CountAppend<T>(a: seq<T>, b: seq<T>, p: T -> bool)
    ensures Count(a + b, p) == Count(a, p) + Count(b, p)
  {
    if |a| == 0 {
      assert a + b == b;
    } else {
      assert (a + b)[1..] == a[1..] + b;
      CountAppend(a[1..], b, p);
    }
  }
}
