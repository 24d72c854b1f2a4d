/**
 `lora_data_handler`: the reactions to the radio stack's join-finished,
 receive and transmission-finished events, taken in that order within one
 call, each only when its flag is pending.
 */
module LoraHandler {
  import opened Common
  import opened App
  import AtEvents
  import RxLog

  /** Consecutive failed transmissions after which the device is reset. */
  const ResetThreshold: int := 10

  /** `g_last_rssi`, `g_last_snr`, `g_last_fport` and the received bytes. */
  datatype RxPacket = RxPacket(rssi: int16, snr: int8, fport: uint8, data: seq<uint8>)

  /** What the radio stack reports with the events: `g_join_result`, the last
      received packet and `g_rx_fin_result`. */
  datatype LoraInput = LoraInput(joinResult: bool, rx: RxPacket, txResult: bool)

  /** The line a join result is announced with. */
  function JoinLine(joinResult: bool): string {
    if joinResult then AtEvents.Joined else AtEvents.JoinFailed
  }

  /** The line a finished transmission is announced with. */
  function TxLine(st: AppState, txResult: bool): string {
    if !st.lorawanEnable then AtEvents.TxP2pDoneNewline
    else if !st.confirmed then AtEvents.TxDone
    else if txResult then AtEvents.SendConfirmedOk
    else AtEvents.SendConfirmedFailed
  }

  /** Join finished: announce the result; on failure ask to join again. */
  function JoinFinished(st: AppState, joinResult: bool): (r: Step)
    ensures r.state.pending == st.pending - {LoraJoinFin}
    ensures r.state == st.(pending := r.state.pending)
    ensures Lines(r.actions) == if LoraJoinFin in st.pending then [JoinLine(joinResult)] else []
    ensures Joins(r.actions) == if LoraJoinFin in st.pending && !joinResult then 1 else 0
    ensures |r.actions| == |Lines(r.actions)| + Joins(r.actions)
    ensures Sends(r.actions) == [] && Resets(r.actions) == 0
  {
    if LoraJoinFin !in st.pending then
      Step(st, [])
    else
      var st' := Clear(st, LoraJoinFin);
      if joinResult then
        ViewsOne(AtLine(AtEvents.Joined));
        Step(st', [AtLine(AtEvents.Joined)])
      else
        ViewsOne(AtLine(AtEvents.JoinFailed));
        ViewsOne(RequestJoin);
        ViewsAppend([AtLine(AtEvents.JoinFailed)], [RequestJoin]);
        Step(st', [AtLine(AtEvents.JoinFailed)] + [RequestJoin])
  }

  /** Data received: one `+EVT` receive line and nothing else. Its hex field
      is what the C loop leaves in the buffer: the text of the bytes of the
      last round of the 8-bit write index, all of them up to 128 bytes. */
  function RxData(st: AppState, rx: RxPacket): (r: Step)
    ensures r.state.pending == st.pending - {LoraData}
    ensures r.state == st.(pending := r.state.pending)
    ensures Lines(r.actions)
            == if LoraData in st.pending
               then [AtEvents.RxLine(st.lorawanEnable, rx.rssi, rx.snr, rx.fport, RxLog.Printed(rx.data))] else []
    ensures |r.actions| == |Lines(r.actions)|
    ensures Sends(r.actions) == [] && Joins(r.actions) == 0 && Resets(r.actions) == 0
  {
    if LoraData !in st.pending then
      Step(st, [])
    else
      var line := AtEvents.RxLine(st.lorawanEnable, rx.rssi, rx.snr, rx.fport, RxLog.Printed(rx.data));
      ViewsOne(AtLine(line));
      Step(Clear(st, LoraData), [AtLine(line)])
  }

  /** The report a host should read for `rx` when `shown` are the bytes printed. */
  function RxReportOf(lorawan: bool, rx: RxPacket, shown: seq<uint8>): AtEvents.RxReport {
    if lorawan then AtEvents.Unicast(rx.rssi, rx.snr, rx.fport, shown)
    else AtEvents.PeerToPeer(rx.rssi, rx.snr, shown)
  }

  /** The host reads back from the receive line the signal quality, the port
      in LoRaWAN mode and the mode that delivered the packet; it reads back
      every received byte exactly when the packet has at most 128 bytes. */
  lemma RxReported(st: AppState, rx: RxPacket)
    requires LoraData in st.pending
    ensures AtEvents.ParseRx(Lines(RxData(st, rx).actions)[0])
            == Some(RxReportOf(st.lorawanEnable, rx, RxLog.Printed(rx.data)))
    ensures AtEvents.ParseRx(Lines(RxData(st, rx).actions)[0]) == Some(RxReportOf(st.lorawanEnable, rx, rx.data))
            <==> |rx.data| <= 128
  {
    var shown := RxLog.Printed(rx.data);
    assert Lines(RxData(st, rx).actions)[0] == AtEvents.RxLine(st.lorawanEnable, rx.rssi, rx.snr, rx.fport, shown);
    AtEvents.ParseRxLine(st.lorawanEnable, rx.rssi, rx.snr, rx.fport, shown);
    RxLog.PrintedAll(rx.data);
    assert RxReportOf(st.lorawanEnable, rx, shown) == RxReportOf(st.lorawanEnable, rx, rx.data) <==> shown == rx.data;
  }

  /** The receive step as evidently intended: the hex field carries every
      received byte. It agrees with `RxData` on packets of up to 128 bytes. */
  function RxDataIntended(st: AppState, rx: RxPacket): (r: Step)
    ensures r.state == RxData(st, rx).state
    ensures Lines(r.actions)
            == if LoraData in st.pending
               then [AtEvents.RxLine(st.lorawanEnable, rx.rssi, rx.snr, rx.fport, rx.data)] else []
    ensures |r.actions| == |Lines(r.actions)|
    ensures |rx.data| <= 128 ==> r == RxData(st, rx)
  {
    if LoraData !in st.pending then
      Step(st, [])
    else
      var line := AtEvents.RxLine(st.lorawanEnable, rx.rssi, rx.snr, rx.fport, rx.data);
      ViewsOne(AtLine(line));
      Step(Clear(st, LoraData), [AtLine(line)])
  }

  /** With the intended text, the host reads back every received byte,
      whatever the length of the packet. */
  lemma RxReportedIntended(st: AppState, rx: RxPacket)
    requires LoraData in st.pending
    ensures AtEvents.ParseRx(Lines(RxDataIntended(st, rx).actions)[0]) == Some(RxReportOf(st.lorawanEnable, rx, rx.data))
  {
    AtEvents.ParseRxLine(st.lorawanEnable, rx.rssi, rx.snr, rx.fport, rx.data);
  }

  /** Transmission finished. In LoRaWAN mode a failed cycle, confirmed or
      not, increments the 8-bit `send_fail`, and the increment that makes it
      10 resets the device. */
  function TxFinished(st: AppState, txResult: bool): (r: Step)
    ensures r.state.pending == st.pending - {LoraTxFin}
    ensures r.state == st.(pending := r.state.pending, sendFail := r.state.sendFail)
    ensures r.state.sendFail
            == if LoraTxFin in st.pending && st.lorawanEnable && !txResult then (st.sendFail + 1) % 256 else st.sendFail
    ensures Lines(r.actions) == if LoraTxFin in st.pending then [TxLine(st, txResult)] else []
    ensures Resets(r.actions)
            == if LoraTxFin in st.pending && st.lorawanEnable && !txResult && r.state.sendFail == ResetThreshold
               then 1 else 0
    ensures |r.actions| == |Lines(r.actions)| + Resets(r.actions)
    ensures Sends(r.actions) == [] && Joins(r.actions) == 0
    ensures st.lorawanEnable ==> AtEvents.TxP2pDone !in Lines(r.actions)
  {
    if LoraTxFin !in st.pending then
      Step(st, [])
    else
      var st' := Clear(st, LoraTxFin);
      if st.lorawanEnable then
        var report :=
          if st.lorawanEnable then
            if !st.confirmed then AtEvents.TxDone
            else if txResult then AtEvents.SendConfirmedOk
            else AtEvents.SendConfirmedFailed
          else AtEvents.TxP2pDone;
        if !txResult then
          var sendFail := (st.sendFail + 1) % 256;
          Step(st'.(sendFail := sendFail), Report(report, sendFail == ResetThreshold))
        else
          Step(st', Report(report, false))
      else
        Step(st', Report(AtEvents.TxP2pDoneNewline, false))
  }

  /** An AT line, followed by `api_reset()` when `reset` holds. */
  function Report(line: string, reset: bool): (acts: seq<Action>)
    ensures Lines(acts) == [line]
    ensures Resets(acts) == if reset then 1 else 0
    ensures |acts| == 1 + Resets(acts)
    ensures Sends(acts) == [] && Joins(acts) == 0
  {
    ViewsOne(AtLine(line));
    if reset then
      ViewsOne(DeviceReset);
      ViewsAppend([AtLine(line)], [DeviceReset]);
      [AtLine(line)] + [DeviceReset]
    else [AtLine(line)]
  }

  /** `lora_data_handler`: join result, then received data, then transmission
      result, each when pending. All three flags are cleared, and nothing but
      the failure counter changes besides; it moves only after a failed
      LoRaWAN transmission, and then by one, modulo 256. */
  function LoraDataHandler(st: AppState, inp: LoraInput): (r: Step)
    ensures r.state.pending == st.pending - {LoraJoinFin, LoraData, LoraTxFin}
    ensures r.state == st.(pending := r.state.pending, sendFail := r.state.sendFail)
    ensures r.state.sendFail
            == if LoraTxFin in st.pending && st.lorawanEnable && !inp.txResult
               then (st.sendFail + 1) % 256 else st.sendFail
  {
    var join := JoinFinished(st, inp.joinResult);
    var rx := RxData(join.state, inp.rx);
    var tx := TxFinished(rx.state, inp.txResult);
    Step(tx.state, join.actions + rx.actions + tx.actions)
  }

  /** One handler call prints the join line, the receive line and the
      transmission line of the pending events, in that order. */
  lemma LoraDataHandlerLines(st: AppState, inp: LoraInput)
    ensures Lines(LoraDataHandler(st, inp).actions)
            == (if LoraJoinFin in st.pending then [JoinLine(inp.joinResult)] else [])
               + (if LoraData in st.pending
                  then [AtEvents.RxLine(st.lorawanEnable, inp.rx.rssi, inp.rx.snr, inp.rx.fport, RxLog.Printed(inp.rx.data))]
                  else [])
               + (if LoraTxFin in st.pending then [TxLine(st, inp.txResult)] else [])
  {
    var join := JoinFinished(st, inp.joinResult);
    var rx := RxData(join.state, inp.rx);
    var tx := TxFinished(rx.state, inp.txResult);
    LinesOfThree(join.actions, rx.actions, tx.actions,
                 if LoraJoinFin in st.pending then [JoinLine(inp.joinResult)] else [],
                 if LoraData in st.pending
                 then [AtEvents.RxLine(st.lorawanEnable, inp.rx.rssi, inp.rx.snr, inp.rx.fport, RxLog.Printed(inp.rx.data))]
                 else [],
                 if LoraTxFin in st.pending then [TxLine(st, inp.txResult)] else []);
  }

  lemma LinesOfThree(a: seq<Action>, b: seq<Action>, c: seq<Action>, la: seq<string>, lb: seq<string>, lc: seq<string>)
    requires Lines(a) == la && Lines(b) == lb && Lines(c) == lc
    ensures Lines(a + b + c) == la + lb + lc
  {
    ViewsAppend(a, b);
    ViewsAppend(a + b, c);
  }

  /** One handler call asks to join again only after a failed join, resets
      the device only on the failure that brings `send_fail` to 10, and never
      submits a packet. */
  lemma LoraDataHandlerCounts(st: AppState, inp: LoraInput)
    ensures var r := LoraDataHandler(st, inp);
      && Joins(r.actions) == (if LoraJoinFin in st.pending && !inp.joinResult then 1 else 0)
      && Resets(r.actions) == (if LoraTxFin in st.pending && st.lorawanEnable && !inp.txResult
                                  && r.state.sendFail == ResetThreshold then 1 else 0)
      && Sends(r.actions) == []
  {
    var join := JoinFinished(st, inp.joinResult);
    var rx := RxData(join.state, inp.rx);
    var tx := TxFinished(rx.state, inp.txResult);
    CountsOfThree(join.actions, rx.actions, tx.actions);
  }

  lemma CountsOfThree(a: seq<Action>, b: seq<Action>, c: seq<Action>)
    ensures Joins(a + b + c) == Joins(a) + Joins(b) + Joins(c)
    ensures Resets(a + b + c) == Resets(a) + Resets(b) + Resets(c)
    ensures Sends(a + b + c) == Sends(a) + Sends(b) + Sends(c)
  {
    ViewsAppend(a, b);
    ViewsAppend(a + b, c);
  }

  predicate Failed(b: bool) {
    !b
  }

  /** Number of failed transmissions among `results`. */
  function Failures(results: seq<bool>): nat {
    Count(results, Failed)
  }

  /** A run of transmission-finished events, one per result. */
  function TxRun(st: AppState, results: seq<bool>): (r: Step)
    ensures r.state.lorawanEnable == st.lorawanEnable
    decreases |results|
  {
    if |results| == 0 then Step(st, [])
    else
      var first := TxFinished(st.(pending := st.pending + {LoraTxFin}), results[0]);
      var rest := TxRun(first.state, results[1..]);
      Step(rest.state, first.actions + rest.actions)
  }

  /** `send_fail` counts the failed LoRaWAN transmissions modulo 256 and is
      never decremented; in P2P mode it is never touched. */
  lemma {:induction false} TxRunCounter(st: AppState, results: seq<bool>)
    ensures TxRun(st, results).state.sendFail
            == if st.lorawanEnable then (st.sendFail + Failures(results)) % 256 else st.sendFail
    decreases |results|
  {
    if |results| > 0 {
      var armed := st.(pending := st.pending + {LoraTxFin});
      var first := TxFinished(armed, results[0]);
      assert LoraTxFin in armed.pending && armed.lorawanEnable == st.lorawanEnable;
      TxRunCounter(first.state, results[1..]);
      assert TxRun(st, results).state == TxRun(first.state, results[1..]).state;
      CounterStep(st.lorawanEnable, st.sendFail, results, first.state.sendFail,
                  TxRun(first.state, results[1..]).state.sendFail);
    }
  }

  /** The counter after a first result and then the rest, in plain numbers. */
  lemma CounterStep(lorawan: bool, s0: nat, results: seq<bool>, mid: nat, last: nat)
    requires |results| > 0
    requires mid == if lorawan && !results[0] then (s0 + 1) % 256 else s0
    requires last == if lorawan then (mid + Failures(results[1..])) % 256 else mid
    ensures last == if lorawan then (s0 + Failures(results)) % 256 else s0
  {
    FailuresCons(results);
    if lorawan && !results[0] {
      WrapStep(s0, Failures(results[1..]));
    }
  }

  lemma FailuresCons(results: seq<bool>)
    requires |results| > 0
    ensures Failures(results) == (if results[0] then 0 else 1) + Failures(results[1..])
  {
  }

  /** Counting one more modulo 256 and then `k` more is counting `k + 1`. */
  lemma WrapStep(a: nat, k: nat)
    ensures ((a + 1) % 256 + k) % 256 == (a + 1 + k) % 256
  {
    var q := (a + 1) / 256;
    assert a + 1 + k == (a + 1) % 256 + k + 256 * q;
  }

  /** Starting below the threshold, the device is reset exactly once, on the
      failure that brings `send_fail` to 10, and never while fewer than 10
      failures have been counted. */
  lemma {:induction false} TxRunResets(st: AppState, results: seq<bool>)
    requires st.sendFail + Failures(results) < 256
    ensures Resets(TxRun(st, results).actions)
            == if st.lorawanEnable && st.sendFail < ResetThreshold <= st.sendFail + Failures(results) then 1 else 0
    decreases |results|
  {
    if |results| > 0 {
      var armed := st.(pending := st.pending + {LoraTxFin});
      var first := TxFinished(armed, results[0]);
      assert LoraTxFin in armed.pending && armed.lorawanEnable == st.lorawanEnable;
      FailuresCons(results);
      if st.lorawanEnable && !results[0] {
        assert first.state.sendFail == st.sendFail + 1;
      } else {
        assert first.state.sendFail == st.sendFail;
        assert Resets(first.actions) == 0;
      }
      TxRunResets(first.state, results[1..]);
      assert TxRun(st, results).actions == first.actions + TxRun(first.state, results[1..]).actions;
      CountAppend(first.actions, TxRun(first.state, results[1..]).actions, IsReset);
    }
  }
}
