/**
 The `+EVT:` lines the application prints on the AT interface: colon
 separated fields, the first always `+EVT`. `Split` and `ParseRx` are the
 host's reading side, used to state that the receive line loses nothing.
 */
module AtEvents {
  import opened Common
  import Hex
  import Decimal

  const Separator: char := ':'

  const Joined: string := "+EVT:JOINED"
  const JoinFailed: string := "+EVT:JOIN_FAILED_TX_TIMEOUT"
  const TxDone: string := "+EVT:TX_DONE"
  const SendConfirmedOk: string := "+EVT:SEND_CONFIRMED_OK"
  const SendConfirmedFailed: string := "+EVT:SEND_CONFIRMED_FAILED"
  /** The peer-to-peer completion line of the LoRaWAN branch. */
  const TxP2pDone: string := "+EVT:TXP2P_DONE"
  /** The peer-to-peer completion line of the P2P branch carries its own newline. */
  const TxP2pDoneNewline: string := "+EVT:TXP2P_DONE\n"

  /** Fields joined by the separator. */
  function Join(fields: seq<string>): (s: string)
    requires |fields| >= 1
  {
    if |fields| == 1 then fields[0] else fields[0] + [Separator] + Join(fields[1..])
  }

  /** Position of the first separator in `s`, or `|s|` when there is none. */
  function IndexOfSeparator(s: string): (i: nat)
    ensures i <= |s|
    ensures forall j :: 0 <= j < i ==> s[j] != Separator
    ensures i < |s| ==> s[i] == Separator
  {
    if |s| == 0 || s[0] == Separator then 0 else 1 + IndexOfSeparator(s[1..])
  }

  /** Cuts `s` at every separator. */
  function Split(s: string): (fields: seq<string>)
    ensures |fields| >= 1
    decreases |s|
  {
    var i := IndexOfSeparator(s);
    if i == |s| then [s] else [s[..i]] + Split(s[i + 1..])
  }

  predicate NoSeparator(f: string) {
    forall j :: 0 <= j < |f| ==> f[j] != Separator
  }

  /** Splitting joined fields gives the fields back when none holds a separator. */
  lemma {:induction false} SplitJoin(fields: seq<string>)
    requires |fields| >= 1
    requires forall k :: 0 <= k < |fields| ==> NoSeparator(fields[k])
    ensures Split(Join(fields)) == fields
  {
    var f0 := fields[0];
    assert NoSeparator(f0);
    if |fields| == 1 {
      SplitWhole(f0);
    } else {
      assert Join(fields) == f0 + [Separator] + Join(fields[1..]);
      SplitFirst(f0, Join(fields[1..]));
      SplitJoin(fields[1..]);
      assert fields == [f0] + fields[1..];
    }
  }

  lemma SplitWhole(f: string)
    requires NoSeparator(f)
    ensures Split(f) == [f]
  {
    assert IndexOfSeparator(f) == |f|;
  }

  /** A field without separators followed by a separator is cut off whole. */
  lemma SplitFirst(f: string, rest: string)
    requires NoSeparator(f)
    ensures Split(f + [Separator] + rest) == [f] + Split(rest)
  {
    var s := f + [Separator] + rest;
    assert s[|f|] == Separator;
    assert IndexOfSeparator(s) == |f|;
    assert s[..|f|] == f;
    assert s[|f| + 1..] == rest;
  }

  lemma FormatHasNoSeparator(n: int)
    ensures NoSeparator(Decimal.Format(n))
  {
  }

  lemma HexHasNoSeparator(data: seq<uint8>)
    ensures NoSeparator(Hex.Encode(data))
  {
    Hex.EncodeIsHex(data);
  }

  /** What a host can read from a receive line. */
  datatype RxReport =
    | Unicast(rssi: int, snr: int, port: int, data: seq<uint8>)
    | PeerToPeer(rssi: int, snr: int, data: seq<uint8>)

  /** Fields of the receive line: `+EVT:RX_1:<rssi>:<snr>:UNICAST:<port>:<hex>`
      in LoRaWAN mode, `+EVT:RXP2P:<rssi>:<snr>:<hex>` otherwise. */
  function RxFields(lorawan: bool, rssi: int16, snr: int8, port: uint8, data: seq<uint8>): (fields: seq<string>)
    ensures |fields| >= 1 && fields[0] == "+EVT"
    ensures fields[|fields| - 1] == Hex.Encode(data)
    ensures forall k :: 0 <= k < |fields| ==> NoSeparator(fields[k])
  {
    FormatHasNoSeparator(rssi);
    FormatHasNoSeparator(snr);
    FormatHasNoSeparator(port);
    HexHasNoSeparator(data);
    if lorawan then
      ["+EVT", "RX_1", Decimal.Format(rssi), Decimal.Format(snr), "UNICAST", Decimal.Format(port), Hex.Encode(data)]
    else
      ["+EVT", "RXP2P", Decimal.Format(rssi), Decimal.Format(snr), Hex.Encode(data)]
  }

  /** The receive line printed for a packet. */
  function RxLine(lorawan: bool, rssi: int16, snr: int8, port: uint8, data: seq<uint8>): (line: string)
    ensures |line| >= 5 && line[..5] == "+EVT:"
  {
    var fields := RxFields(lorawan, rssi, snr, port, data);
    assert fields == [fields[0]] + fields[1..];
    Join(fields)
  }

  /** The host's reading of a receive line. */
  function ParseRx(line: string): Option<RxReport> {
    var f := Split(line);
    if |f| == 7 && f[0] == "+EVT" && f[1] == "RX_1" && f[4] == "UNICAST" then
      match (Decimal.Parse(f[2]), Decimal.Parse(f[3]), Decimal.Parse(f[5]), Hex.Decode(f[6]))
      case (Some(rssi), Some(snr), Some(port), Some(data)) => Some(Unicast(rssi, snr, port, data))
      case _ => None
    else if |f| == 5 && f[0] == "+EVT" && f[1] == "RXP2P" then
      match (Decimal.Parse(f[2]), Decimal.Parse(f[3]), Hex.Decode(f[4]))
      case (Some(rssi), Some(snr), Some(data)) => Some(PeerToPeer(rssi, snr, data))
      case _ => None
    else None
  }

  /** The receive line carries the signal quality, the port (LoRaWAN only)
      and every received byte, and says which mode delivered it. */
  lemma ParseRxLine(lorawan: bool, rssi: int16, snr: int8, port: uint8, data: seq<uint8>)
    ensures ParseRx(RxLine(lorawan, rssi, snr, port, data))
            == if lorawan then Some(Unicast(rssi, snr, port, data)) else Some(PeerToPeer(rssi, snr, data))
  {
    SplitJoin(RxFields(lorawan, rssi, snr, port, data));
    Decimal.ParseFormat(rssi);
    Decimal.ParseFormat(snr);
    Decimal.ParseFormat(port);
    Hex.DecodeEncode(data);
  }
}
