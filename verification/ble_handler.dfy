/**
 `ble_data_handler`: bytes arriving over the BLE UART are handed, one by
 one and in order, to the AT command interpreter, and the line is closed
 with a newline.
 */
module BleHandler {
  import opened Common
  import opened App

  /** The line terminator appended after the forwarded bytes. */
  const Newline: uint8 := 10

  /** One `at_serial_input` call per byte, in order. */
  function Forward(bytes: seq<uint8>): (acts: seq<Action>)
    ensures |acts| == |bytes|
    ensures forall i :: 0 <= i < |bytes| ==> acts[i] == AtInput(bytes[i])
  {
    if |bytes| == 0 then [] else [AtInput(bytes[0])] + Forward(bytes[1..])
  }

  /** The interpreter receives exactly the forwarded bytes. */
  lemma {:induction false} InputsOfForward(bytes: seq<uint8>)
    ensures Inputs(Forward(bytes)) == bytes
  {
    if |bytes| > 0 {
      InputsOfForward(bytes[1..]);
      ViewsAppend([AtInput(bytes[0])], Forward(bytes[1..]));
      ViewsOne(AtInput(bytes[0]));
      assert bytes == [bytes[0]] + bytes[1..];
    }
  }

  /** `ble_data_handler`, given the bytes the UART has available. When BLE is
      disabled nothing happens and the flag stays pending. */
  function BleDataHandler(st: AppState, available: seq<uint8>): (r: Step)
    ensures !st.bleEnabled || BleData !in st.pending ==> r == Step(st, [])
    ensures st.bleEnabled && BleData in st.pending ==>
      && r.state == st.(pending := st.pending - {BleData})
      && Inputs(r.actions) == available + [Newline]
      && |r.actions| == |available| + 1
      && forall i :: 0 <= i < |r.actions| ==> r.actions[i].AtInput?
  {
    if st.bleEnabled && BleData in st.pending then
      InputsOfForward(available);
      ViewsAppend(Forward(available), [AtInput(Newline)]);
      ViewsOne(AtInput(Newline));
      Step(Clear(st, BleData), Forward(available) + [AtInput(Newline)])
    else Step(st, [])
  }
}
