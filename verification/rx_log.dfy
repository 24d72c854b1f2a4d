/**
 The receive handler's construction of the hex text as the C code does it:
 a character buffer of 3·N characters, one `"%02X"` write per byte at an
 8-bit write index that advances by two, and the text read back up to the
 first NUL. For N <= 128 this is exactly `Hex.Encode`; beyond that the index
 wraps at 256 and the text keeps only the bytes of the last round of up to 128,
 from index 128·⌊(N−1)/128⌋ on.
 */
module RxLog {
  import opened Common
  import Hex

  const Nul: char := '\0'

  /** `sprintf(&buf[at], "%02X", b)`: two digits and a terminating NUL. */
  function Sprintf02X(buf: seq<char>, at: int, b: uint8): (r: seq<char>)
    requires 0 <= at && at + 3 <= |buf|
    ensures |r| == |buf|
    ensures r[..at] == buf[..at]
    ensures r[at..at + 2] == Hex.Byte(b) && r[at + 2] == Nul
  {
    buf[..at] + Hex.Byte(b) + [Nul] + buf[at + 3..]
  }

  /** The characters of `buf` before its first NUL (all of it when it has none). */
  function CString(buf: seq<char>): seq<char> {
    if |buf| == 0 || buf[0] == Nul then [] else [buf[0]] + CString(buf[1..])
  }

  lemma {:induction false} CStringUpTo(buf: seq<char>, p: nat)
    requires p < |buf| && buf[p] == Nul
    requires forall j :: 0 <= j < p ==> buf[j] != Nul
    ensures CString(buf) == buf[..p]
  {
    if p > 0 {
      CStringUpTo(buf[1..], p - 1);
      assert buf[..p] == [buf[0]] + buf[1..][..p - 1];
    }
  }

  /** Index of the first byte whose text survives in a buffer of `n` writes:
      the start of the last round of 128 writes of the 8-bit index. */
  function LastRoundStart(n: nat): (m: nat)
    ensures m <= n
    ensures n > 0 ==> m < n <= m + 128
    ensures m % 128 == 0
    ensures n <= 128 ==> m == 0
  {
    if n == 0 then 0 else ((n - 1) / 128) * 128
  }

  /** The bytes whose text survives the 8-bit write index: those of the last
      round of up to 128 writes, a suffix of `data`. */
  function Printed(data: seq<uint8>): (shown: seq<uint8>)
    ensures |shown| <= 128 && |shown| <= |data|
    ensures shown == data[|data| - |shown|..]
    ensures |data| <= 128 ==> shown == data
    ensures |data| > 0 ==> |shown| > 0
  {
    data[LastRoundStart(|data|)..]
  }

  /** Every byte is printed exactly when there are at most 128 of them. */
  lemma PrintedAll(data: seq<uint8>)
    ensures Printed(data) == data <==> |data| <= 128
  {
    if |data| > 128 {
      assert |Printed(data)| < |data|;
    }
  }

  /** After `idx` writes, the buffer holds the text of the current round
      followed by a NUL. */
  ghost predicate RoundWritten(data: seq<uint8>, idx: nat, logBuff: seq<char>)
    requires 0 < idx <= |data|
  {
    var m := LastRoundStart(idx);
    && 2 * (idx - m) < |logBuff|
    && logBuff[..2 * (idx - m)] == Hex.Encode(data[m..idx])
    && logBuff[2 * (idx - m)] == Nul
  }

  /** The 8-bit write index of the byte at `idx` points just past the text
      of the earlier bytes of its round. */
  lemma WriteIndex(idx: nat)
    ensures (2 * idx) % 256 == 2 * (idx - LastRoundStart(idx + 1))
  {
    var m := LastRoundStart(idx + 1);
    assert idx - m < 128;
    assert 2 * idx == 2 * (idx - m) + 256 * (m / 128);
  }

  /** `log_idx += 2` on the 8-bit index. */
  lemma AdvanceIndex(idx: nat)
    ensures ((2 * idx) % 256 + 2) % 256 == (2 * (idx + 1)) % 256
  {
    var q, r := (2 * idx) / 256, (2 * idx) % 256;
    assert 2 * idx == 256 * q + r;
    if r + 2 < 256 {
      assert 2 * (idx + 1) == 256 * q + (r + 2);
    } else {
      assert 2 * (idx + 1) == 256 * (q + 1) + (r + 2 - 256);
    }
  }

  /** One turn of the loop keeps the buffer and the 8-bit index in step. */
  lemma WriteStep(data: seq<uint8>, idx: nat, logIdx: uint8, logBuff: seq<char>)
    requires idx < |data| && |logBuff| == 3 * |data|
    requires logIdx == (2 * idx) % 256
    requires idx > 0 ==> RoundWritten(data, idx, logBuff)
    ensures logIdx + 3 <= |logBuff|
    ensures RoundWritten(data, idx + 1, Sprintf02X(logBuff, logIdx, data[idx]))
    ensures (logIdx + 2) % 256 == (2 * (idx + 1)) % 256
  {
    AdvanceIndex(idx);
    WriteIndex(idx);
    RoundStart(idx);
    if idx % 128 != 0 {
      SameRoundStep(data, idx, logBuff);
    } else {
      NewRoundStep(data, idx, logBuff);
    }
  }

  /** Where the round of write `idx` starts. */
  lemma RoundStart(idx: nat)
    ensures idx % 128 == 0 ==> LastRoundStart(idx + 1) == idx
    ensures idx % 128 != 0 ==> idx > 0 && LastRoundStart(idx + 1) == LastRoundStart(idx)
  {
    if idx % 128 != 0 {
      assert (idx - 1) / 128 == idx / 128;
    }
  }

  lemma SameRoundStep(data: seq<uint8>, idx: nat, logBuff: seq<char>)
    requires 0 < idx < |data| && |logBuff| == 3 * |data|
    requires LastRoundStart(idx + 1) == LastRoundStart(idx)
    requires RoundWritten(data, idx, logBuff)
    ensures 2 * (idx - LastRoundStart(idx)) + 3 <= |logBuff|
    ensures RoundWritten(data, idx + 1, Sprintf02X(logBuff, 2 * (idx - LastRoundStart(idx)), data[idx]))
  {
    WriteSameRound(data, idx, LastRoundStart(idx), logBuff);
  }

  lemma NewRoundStep(data: seq<uint8>, idx: nat, logBuff: seq<char>)
    requires idx < |data| && |logBuff| == 3 * |data|
    requires LastRoundStart(idx + 1) == idx
    ensures RoundWritten(data, idx + 1, Sprintf02X(logBuff, 0, data[idx]))
  {
    WriteNewRound(data, idx, logBuff);
  }

  lemma WriteSameRound(data: seq<uint8>, idx: nat, m: nat, logBuff: seq<char>)
    requires m < idx < |data| && |logBuff| == 3 * |data| && idx - m < 128
    requires logBuff[..2 * (idx - m)] == Hex.Encode(data[m..idx])
    ensures 2 * (idx - m) + 3 <= |logBuff|
    ensures var after := Sprintf02X(logBuff, 2 * (idx - m), data[idx]);
      && after[..2 * (idx + 1 - m)] == Hex.Encode(data[m..idx + 1])
      && after[2 * (idx + 1 - m)] == Nul
  {
    var at := 2 * (idx - m);
    var after := Sprintf02X(logBuff, at, data[idx]);
    AppendByte(data[m..idx], data[idx]);
    assert data[m..idx] + [data[idx]] == data[m..idx + 1];
    assert after[..at + 2] == after[..at] + after[at..at + 2];
  }

  lemma WriteNewRound(data: seq<uint8>, idx: nat, logBuff: seq<char>)
    requires idx < |data| && |logBuff| == 3 * |data|
    ensures 3 <= |logBuff|
    ensures var after := Sprintf02X(logBuff, 0, data[idx]);
      && after[..2] == Hex.Encode(data[idx..idx + 1])
      && after[2] == Nul
  {
    assert data[idx..idx + 1] == [data[idx]];
    AppendByte([], data[idx]);
  }

  lemma AppendByte(a: seq<uint8>, b: uint8)
    ensures Hex.Encode(a + [b]) == Hex.Encode(a) + Hex.Byte(b)
  {
    Hex.EncodeAppend(a, [b]);
    assert [b][1..] == [];
  }

  /** The text the receive handler prints for `data`, computed as written.
      `prior` is whatever the debug loop left in the 3·N buffer: the second
      loop's text does not depend on it. */
  method HexAsWritten(data: seq<uint8>, prior: seq<char>) returns (text: string)
    requires |prior| == 3 * |data|
    ensures text == Hex.Encode(Printed(data))
    ensures |data| <= 128 ==> text == Hex.Encode(data)
    ensures |data| > 128 ==> |text| <= 256 < 2 * |data|
  {
    var logBuff := WriteRounds(data, prior);
    text := CString(logBuff);
    FinalText(data, logBuff);
  }

  /** The `"%02X"` loop with the 8-bit write index that advances by two. */
  method WriteRounds(data: seq<uint8>, prior: seq<char>) returns (logBuff: seq<char>)
    requires |prior| == 3 * |data|
    ensures |logBuff| == 3 * |data|
    ensures |data| > 0 ==> RoundWritten(data, |data|, logBuff)
  {
    logBuff := prior;
    var logIdx: uint8 := 0;
    var idx := 0;
    while idx < |data|
      invariant 0 <= idx <= |data|
      invariant |logBuff| == 3 * |data|
      invariant logIdx == (2 * idx) % 256
      invariant idx > 0 ==> RoundWritten(data, idx, logBuff)
    {
      WriteStep(data, idx, logIdx, logBuff);
      logBuff := Sprintf02X(logBuff, logIdx, data[idx]);
      logIdx := (logIdx + 2) % 256;
      idx := idx + 1;
    }
  }

  lemma FinalText(data: seq<uint8>, logBuff: seq<char>)
    requires |logBuff| == 3 * |data|
    requires |data| > 0 ==> RoundWritten(data, |data|, logBuff)
    ensures CString(logBuff) == Hex.Encode(Printed(data))
  {
    if |data| > 0 {
      var m := LastRoundStart(|data|);
      assert data[m..|data|] == data[m..];
      Hex.EncodeIsHex(data[m..]);
      CStringUpTo(logBuff, 2 * (|data| - m));
    }
  }

  /** A 129-byte packet is printed as the text of its last byte only. */
  lemma TruncatedAt129(data: seq<uint8>)
    requires |data| == 129
    ensures Printed(data) == [data[128]]
    ensures Hex.Encode(Printed(data)) == Hex.Byte(data[128])
  {
    assert data[128..] == [data[128]];
  }
}
