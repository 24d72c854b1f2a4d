# RAK12022 PT100 sensor node: application event layer

This is a Dafny model of the application layer of the RAK12022 PT100 LoRaWAN
firmware (`src/main.cpp`). The layer is a single-threaded, event-flag-driven
state machine with three handlers. Each handler runs to completion.

- `app_event_handler`, the timer branch (module `TimerCycle`):
  1. clears the STATUS flag;
  2. resets the Cayenne LPP payload and adds the battery voltage;
  3. if the PT100 board was detected at start-up, waits for DRDY for a bounded
     time, reads the sensor, adds the temperature when the resistance is
     non-zero, and logs each fault bit;
  4. submits the payload over LoRaWAN when joined, skips the send when not
     joined, or sends it peer to peer when LoRaWAN is off.
- The bounded DRDY wait is in module `DataReady`.
- `lora_data_handler` (module `LoraHandler`) handles three events:
  - join finished: announces the result and rejoins on failure;
  - data received: prints one `+EVT` receive line with the payload in upper-case hex.
    As the C code builds that text, a packet of more than 128 bytes keeps only
    the bytes of the last round of up to 128, from index 128·⌊(N−1)/128⌋ on:
    a 129-byte packet keeps just its last byte (see Findings).
  - transmission finished: prints the report line and counts failures in the
    8-bit `send_fail`; the failure that brings it to 10 resets the device.
- `ble_data_handler` (module `BleHandler`) forwards the available BLE UART
  bytes, then a newline, to the AT interpreter.

Each handler is a pure function from an `App.AppState` to an `App.Step`:
the new state plus the ordered list of calls it makes. `AppState` holds:
- the pending flags;
- the encoder's buffer;
- `send_fail`;
- `has_rak12022`;
- `g_lpwan_has_joined`;
- the LoRaWAN enable and confirmed settings;
- `g_enable_ble`.

The calls are payload-encoder calls, radio submissions, `lmh_join`,
`api_reset`, AT lines, bytes for the AT interpreter, and debug-log records.
Views over the call list (`Sends`, `Lines`, `Inputs`, `Effects`, `Joins`,
`Resets`) and `Replay` of the encoder calls carry the contracts.

Other modules:
- `Hex` and `Decimal` model the `"%02X"` and `"%d"` conversions, each with a reading side.
- `AtEvents` holds the `+EVT` line format and a host-side parser. These are
  used to state that a receive line loses nothing.
- `RxLog` models the C code that builds the receive line's hex text,
  including its 8-bit write index (see Findings). `RxLog.Printed` names the
  bytes whose text survives it, and the receive handler prints the text of those.

Hardware and library calls are inputs or uninterpreted actions:
- the averaged battery voltage;
- the DRDY observations, as a sequence of (level, elapsed ms) samples;
- the sensor reading;
- the result of `send_lora_packet`;
- the join result;
- the received packet;
- the TX result;
- the BLE bytes available.

Two points of the code that are easy to misread:
- In LoRaWAN mode, a false TX result increments `send_fail` for confirmed and
  unconfirmed messages alike (src/main.cpp:403-407).
- The P2P TX-finished line is `+EVT:TXP2P_DONE` followed by a newline
  (src/main.cpp:416-420).

## Model

| member | source | states |
|---|---|---|
| TimerCycle.AppEvent | src/main.cpp:164-281 | With STATUS pending: the flag is cleared and the first two calls are `payload.reset()` and the battery voltage. The payload handed on is the voltage, plus the temperature exactly when the sensor is present and the resistance is non-zero. LoRaWAN joined gives one `send_lora_packet(…, 2)`; LoRaWAN not joined gives no send; P2P gives one `send_p2p_packet` whatever the join state. DRDY timeout is logged iff the sensor is present and the wait timed out. Without STATUS pending, nothing happens. |
| TimerCycle.Acquire | src/main.cpp:186-243 | The sensor block adds only the temperature and log records. The temperature is added iff the resistance is non-zero. The timeout record appears iff the wait timed out. A fault record appears iff that fault bit is set. |
| TimerCycle.LogFaults | src/main.cpp:220-243 | A fault's log record appears iff that fault bit is set. Fault reporting produces nothing but fault log records. |
| TimerCycle.AcquireFacts | src/main.cpp:211-219 | The sensor block extends the encoder's buffer by the temperature exactly when the resistance is non-zero. Its only non-log call is that `addTemperature`. |
| TimerCycle.PrepareFacts | src/main.cpp:175-243 | Whatever the encoder held, the calls before dispatch leave it holding the voltage and then the gated temperature. They send nothing. Their non-log calls are reset, voltage and gated temperature, in that order. |
| TimerCycle.Dispatch | src/main.cpp:252-279 | Exactly one LoRaWAN submission with 2 retries when joined. No submission, and a "not joined" record, when not joined. Exactly one P2P submission when LoRaWAN is off. Nothing else but the result's log record. |
| TimerCycle.EffectsOfCycle | src/main.cpp:175-279 | Log records aside, a cycle's calls are the reset, the voltage, the gated temperature and the sends, in that order. |
| TimerCycle.FaultsOnlyLog | src/main.cpp:220-243 | Changing the fault bits changes neither the resulting state nor any non-log call of the cycle. |
| TimerCycle.SubmitResultOnlyLogged | src/main.cpp:257-269 | The SUCCESS/BUSY/ERROR answer of `send_lora_packet` changes neither the state nor any non-log call. |
| TimerCycle.DrdyTimeoutOnlyLogged | src/main.cpp:195-218 | A DRDY timeout changes neither the state nor any non-log call: the reading is taken and used either way. |
| DataReady.Wait | src/main.cpp:195-205 | The loop leaves at the first sample where DRDY is LOW or more than 5000 ms have elapsed. Every earlier sample is HIGH and within the timeout. It reports ready iff DRDY was LOW at the exit. |
| DataReady.WaitForDataReady | src/main.cpp:195-205 | The polling loop as written terminates. `dready_stat` is false iff the exit was the timeout break with DRDY still HIGH, true iff DRDY was LOW. Its result agrees with `Wait`. |
| DataReady.AdvancingCovers | src/main.cpp:197-204 | If the elapsed time read in iteration i (from 0) is at least 100·(i+1) ms, as one 100 ms delay per iteration gives, 51 iterations always reach an exit of the loop. |
| DataReady.WaitBounded | src/main.cpp:196-204 | Under the same condition (read i at least 100·(i+1) ms), the wait ends by iteration 50. |
| Hex.Encode | src/main.cpp:363-367 | The hex text of N bytes has exactly 2·N characters. |
| Hex.EncodeIsHex | src/main.cpp:365 | Every character of the hex text is an upper-case hex digit: no separators and no terminator. |
| Hex.EncodeAt | src/main.cpp:363-367 | Byte i is written at positions 2i and 2i+1, high nibble first, in byte order. |
| Hex.DecodeEncode | src/main.cpp:363-367 | Reading the hex text back gives the bytes: the encoding loses nothing. |
| Hex.EncodeDecode | src/main.cpp:365 | Every text that reads back is the encoding of what it reads back to, so the upper-case form is canonical. |
| Decimal.Format | src/main.cpp:371 | `"%d"` text is non-empty, starts with `-` exactly for negative numbers, and is digits otherwise. |
| Decimal.ParseFormat | src/main.cpp:371 | Reading back the `"%d"` text of any integer gives that integer. |
| AtEvents.SplitJoin | src/main.cpp:371-375 | Colon-joined fields that contain no colon split back into the same fields. |
| AtEvents.RxLine | src/main.cpp:369-376 | Every receive line starts with `+EVT:`. |
| AtEvents.ParseRxLine | src/main.cpp:369-376 | A host parsing the receive line recovers the RSSI, the SNR, the port (LoRaWAN only) and every byte, and can tell `RX_1 … UNICAST` (LoRaWAN) from `RXP2P`. |
| LoraHandler.JoinFinished | src/main.cpp:323-338 | Only LORA_JOIN_FIN is cleared. Success prints `+EVT:JOINED` and makes no join call. Failure prints `+EVT:JOIN_FAILED_TX_TIMEOUT` and makes exactly one `lmh_join()`. Nothing else is done: no sends, no resets. |
| LoraHandler.RxData | src/main.cpp:341-377 | Only LORA_DATA is cleared, and the only call is the one receive line in the format of the active mode. Its hex field is the text the 8-bit-index loop leaves: that of the bytes of the last round of up to 128. |
| LoraHandler.RxReported | src/main.cpp:362-376 | A host parsing the printed receive line recovers the RSSI, the SNR, the port (LoRaWAN only), the mode and the surviving bytes. It recovers the whole packet iff the packet has at most 128 bytes. |
| LoraHandler.RxDataIntended | src/main.cpp:362-376 | The corrected receive step: the same state change and a single receive line whose hex field covers every byte. It is the same step as `RxData` for packets of up to 128 bytes. |
| LoraHandler.RxReportedIntended | src/main.cpp:369-376 | With the corrected line, a host recovers every byte of a packet of any length, with the RSSI, the SNR, the port and the mode. |
| LoraHandler.TxFinished | src/main.cpp:380-421 | Only LORA_TX_FIN is cleared. LoRaWAN unconfirmed prints `+EVT:TX_DONE` whatever the result; confirmed prints OK or FAILED by the result; P2P prints `+EVT:TXP2P_DONE\n`. In LoRaWAN mode `+EVT:TXP2P_DONE` is never printed. `send_fail` rises by one (8-bit) on a LoRaWAN failure and is untouched otherwise. `api_reset` is called exactly when that increment makes it 10. No sends or joins. |
| LoraHandler.LoraDataHandler | src/main.cpp:320-422 | One call clears all three LoRa flags, whichever were pending. Nothing else in the state changes but `send_fail`. That rises by one (mod 256) exactly on a pending LoRaWAN TX failure, and otherwise stays put. |
| LoraHandler.LoraDataHandlerLines | src/main.cpp:320-422 | One call prints the join line, the receive line (with the surviving bytes' hex) and the TX line of the pending events, in that order, and no other line. |
| LoraHandler.LoraDataHandlerCounts | src/main.cpp:320-422 | One call makes a join call only after a failed join, resets only on the failure that makes `send_fail` 10, and never submits a packet. |
| LoraHandler.TxRunCounter | src/main.cpp:403-407 | Over any run of TX results, `send_fail` in LoRaWAN mode is the initial value plus the number of failures (mod 256). It is never decremented, and in P2P mode never touched. |
| LoraHandler.TxRunResets | src/main.cpp:403-413 | A run resets the device exactly once iff it is in LoRaWAN mode and its failures carry `send_fail` from below 10 to 10 or beyond. It never resets before `send_fail` reaches 10, and never again once `send_fail` has passed 10. |
| BleHandler.Forward | src/main.cpp:306-310 | One `at_serial_input` call per available byte, in order. |
| BleHandler.InputsOfForward | src/main.cpp:306-310 | The interpreter receives exactly the available bytes. |
| BleHandler.BleDataHandler | src/main.cpp:288-314 | With BLE enabled and BLE_DATA pending: the flag is cleared, and the interpreter receives every available byte in order and then one `'\n'`, with no other call. Otherwise nothing happens, and the flag stays pending when BLE is disabled. |
| RxLog.WriteStep | src/main.cpp:363-367 | Each `sprintf` of the loop stays inside the 3·N buffer for every N, even after the 8-bit index wraps. Each one extends the current round's text and keeps the index in step. |
| RxLog.WriteRounds | src/main.cpp:362-367 | Whatever the debug dump left in the buffer, after the loop it holds the hex of the last round of up to 128 bytes, then a NUL. |
| RxLog.Printed | src/main.cpp:362-367 | The bytes whose text survives the 8-bit index are a suffix of the packet, at most 128 long, non-empty for a non-empty packet, and the whole packet when it has at most 128 bytes. |
| RxLog.PrintedAll | src/main.cpp:362-367 | Every byte survives iff the packet has at most 128 bytes. |
| RxLog.HexAsWritten | src/main.cpp:353-367 | The printed text as written is the hex of `Printed`, the bytes from index 128·⌊(N−1)/128⌋ on. It is all 2·N characters for N ≤ 128 and cut short for N > 128. |
| RxLog.TruncatedAt129 | src/main.cpp:362-367 | A 129-byte packet prints as the two digits of its last byte only. |

## Left out

- `setup_app` and `init_app` (serial wait, LED, BLE advertising, sensor bring-up): hardware set-up. Only `has_rak12022` enters the model, as a state field.
- The SPI shutdown and pull-down pin configuration (src/main.cpp:245-249), and the WB_IO2 power switching: electrical side effects with no observable decision.
- Battery averaging and the `/ 1000.0` scaling: float arithmetic over `read_batt()`. The voltage is an opaque `real`.
- Temperature and resistance: opaque `real` values. Only "resistance is zero" decides anything.
- The MAX31865 driver: its initialisation, the fault-threshold settings (the low threshold is set to 25.0 although the comment says 29), and the fault-bit values. Fault bits are a set of named faults.
- The Cayenne LPP byte encoding, its channel numbers and the encoder's 255-byte cap: the encoder is modelled as a list of entries.
- `send_lora_packet`, `send_p2p_packet`, `lmh_join`, `api_reset` and `at_serial_input`: uninterpreted actions. The model records the call and its arguments. `api_reset` does not re-initialise the state, because the restart is outside the model.
- `millis()` and `delay()`, including the 200 ms power-up delay, the 100 ms delay before `api_reset` and the 5 ms delay per BLE byte: time enters only as the DRDY samples.
- DataReady.WaitForDataReady: requires that the sample record reaches an exit of the loop. The firmware relies on the clock advancing for this; `DataReady.AdvancingCovers` shows the record reaches an exit once each poll waits 100 ms. Elapsed time is an unbounded integer here. The code stores `millis()` in a `time_t` (src/main.cpp:196) and compares `millis() - start_wait` with 5000 (src/main.cpp:200). If `time_t` is wider than the 32-bit `millis()`, that difference goes negative when `millis()` wraps during the wait, and with DRDY still HIGH the loop does not time out. Such a record violates `Advancing`, and the model does not cover it.
- `MYLOG` text: decisions that are only logged appear as typed log records, not strings.
- The space-separated debug hex dump (src/main.cpp:353-360): logging only. Its `uint8_t` index advances by 3, so byte i is written at 3·i mod 256. For N ≤ 86 the last `sprintf` writes at 3·(N−1) and its NUL at 3·N, one past the 3·N buffer. From N = 87 the index has wrapped (byte 86 goes to 2), every write ends by position 258 inside a buffer of at least 261, and the dump is truncated as the receive line is. The model lets the second loop start from any buffer contents.
- A zero-length packet: `char log_buff[0]` is a zero-length array, and printing it is undefined in C. The model prints an empty hex field.
- LoraHandler.TxRunResets: stated only for runs that keep `send_fail` below 256. After 256 further failures the 8-bit counter wraps and would pass 10 again; a reset restarts the device long before that.
- `AT_PRINTF` line terminators and the transport of AT lines: a line is its text.
- The event-flag bit masks: the pending flags are a set of named events.

## Findings

| source | as written | input that shows it | evidently intended | confidence | as-written member | corrected member |
|---|---|---|---|---|---|---|
| src/main.cpp:362-367 | `log_idx` is `uint8_t` and advances by 2 per byte. From the 129th byte on it wraps to 0 and overwrites the start of the buffer. The printed hex is then only that of bytes 128·⌊(N−1)/128⌋ … N−1. | a 129-byte packet: the `+EVT` line carries only the 2 digits of byte 128 instead of 258 digits | the receive line carries all 2·N hex digits of the packet | not executed | LoraHandler.RxData | LoraHandler.RxDataIntended |

`RxLog.HexAsWritten` states the loop as written, and `RxLog.TruncatedAt129` shows the 129-byte case. `LoraHandler.RxData` prints that text, so `LoraHandler.RxReported` shows a host recovers the whole packet only up to 128 bytes. The corrected step `LoraHandler.RxDataIntended` prints `Hex.Encode` of the whole packet, and `LoraHandler.RxReportedIntended` (with `AtEvents.ParseRxLine` and `Hex.DecodeEncode`) proves the round trip for every length. The model's `lora_data_handler` follows the code and uses `RxData`.
