/**
 The timer branch of `app_event_handler`: reset the payload, add the
 battery voltage, read the PT100 sensor when it was detected at start-up
 (adding the temperature only when the resistance reads non-zero), report
 the fault bits, and hand the payload to the active radio mode.
 */
module TimerCycle {
  import opened Common
  import opened App
  import DataReady

  /** `MAX31865_GetTemperatureAndStatus`: temperature, resistance, fault bits. */
  datatype Reading = Reading(celsius: real, resistance: real, faults: set<Fault>)

  /** What the world supplies to one timer cycle: the averaged battery voltage,
      the DRDY observations, the sensor reading and the radio's answer to a
      LoRaWAN submission. */
  datatype TimerInput = TimerInput(
    battery: real,
    drdy: seq<DataReady.Sample>,
    reading: Reading,
    submit: SubmitResult)

  /** Confirmation retries passed to `send_lora_packet`. */
  const ConfirmRetries: int := 2

  /** The only test that decides whether the temperature is sent. */
  predicate TemperatureGate(st: AppState, reading: Reading) {
    st.hasRak12022 && reading.resistance != 0.0
  }

  /** The payload a cycle builds. */
  function ExpectedPayload(st: AppState, inp: TimerInput): seq<Entry> {
    [Voltage(inp.battery)] + (if TemperatureGate(st, inp.reading) then [Temperature(inp.reading.celsius)] else [])
  }

  /** A log record for each fault of `order` present in `faults`, in `order`. */
  function LogFaults(order: seq<Fault>, faults: set<Fault>): (notes: seq<Action>)
    ensures forall i :: 0 <= i < |notes| ==> notes[i].Log? && notes[i].note.FaultSeen?
    ensures forall f :: Log(FaultSeen(f)) in notes <==> f in order && f in faults
  {
    if |order| == 0 then []
    else
      var rest := LogFaults(order[1..], faults);
      assert forall f :: f in order <==> f == order[0] || f in order[1..];
      (if order[0] in faults then [Log(FaultSeen(order[0]))] else []) + rest
  }

  lemma FaultOrderComplete(f: Fault)
    ensures f in FaultOrder
  {
  }

  function TimeoutLog(drdy: seq<DataReady.Sample>): seq<Action>
    requires DataReady.Covers(drdy)
  {
    if DataReady.Wait(drdy, 0).ready then [] else [Log(DrdyTimeout)]
  }

  function TemperatureEntry(reading: Reading): seq<Action> {
    if reading.resistance != 0.0 then [AddEntry(Temperature(reading.celsius))] else []
  }

  /** The sensor block: DRDY wait, reading, temperature gate, fault report. */
  function Acquire(drdy: seq<DataReady.Sample>, reading: Reading): (acts: seq<Action>)
    requires DataReady.Covers(drdy)
    ensures forall i :: 0 <= i < |acts| ==> acts[i].Log? || acts[i] == AddEntry(Temperature(reading.celsius))
    ensures AddEntry(Temperature(reading.celsius)) in acts <==> reading.resistance != 0.0
    ensures Log(DrdyTimeout) in acts <==> !DataReady.Wait(drdy, 0).ready
    ensures forall f :: Log(FaultSeen(f)) in acts <==> f in reading.faults
  {
    var faults := LogFaults(FaultOrder, reading.faults);
    assert forall f: Fault :: f in FaultOrder by {
      forall f: Fault ensures f in FaultOrder { FaultOrderComplete(f); }
    }
    TimeoutLog(drdy) + TemperatureEntry(reading) + faults
  }

  /** The radio hand-off of the cycle: one LoRaWAN submission when joined,
      none when not joined, one peer-to-peer submission when LoRaWAN is off. */
  function Dispatch(st: AppState, buffer: seq<Entry>, submit: SubmitResult): (acts: seq<Action>)
    ensures st.lorawanEnable && st.joined ==> Sends(acts) == [SendLora(buffer, ConfirmRetries)]
    ensures st.lorawanEnable && !st.joined ==> Sends(acts) == [] && Log(NotJoined) in acts
    ensures !st.lorawanEnable ==> Sends(acts) == [SendP2p(buffer)]
    ensures forall i :: 0 <= i < |acts| ==>
      IsSend(acts[i]) || acts[i] == Log(NotJoined) || acts[i] == Log(Submitted(submit))
  {
    if st.lorawanEnable then
      if st.joined then
        ViewsAppend([SendLora(buffer, ConfirmRetries)], [Log(Submitted(submit))]);
        ViewsOne(SendLora(buffer, ConfirmRetries));
        ViewsOne(Log(Submitted(submit)));
        [SendLora(buffer, ConfirmRetries)] + [Log(Submitted(submit))]
      else
        ViewsOne(Log(NotJoined));
        [Log(NotJoined)]
    else
      ViewsOne(SendP2p(buffer));
      [SendP2p(buffer)]
  }

  /** Everything the cycle does before the radio hand-off. */
  function Prepare(st: AppState, inp: TimerInput): seq<Action>
    requires st.hasRak12022 ==> DataReady.Covers(inp.drdy)
  {
    [ResetPayload, AddEntry(Voltage(inp.battery))] + (if st.hasRak12022 then Acquire(inp.drdy, inp.reading) else [])
  }

  /** The timer branch of `app_event_handler`. */
  function AppEvent(st: AppState, inp: TimerInput): (r: Step)
    requires Status in st.pending && st.hasRak12022 ==> DataReady.Covers(inp.drdy)
    ensures Status !in st.pending ==> r == Step(st, [])
    ensures Status in st.pending ==>
      && r.state == st.(pending := st.pending - {Status}, buffer := ExpectedPayload(st, inp))
      && |r.actions| >= 2 && r.actions[0] == ResetPayload && r.actions[1] == AddEntry(Voltage(inp.battery))
      && Replay(r.actions, st.buffer) == ExpectedPayload(st, inp)
      && Sends(r.actions) == (if !st.lorawanEnable then [SendP2p(ExpectedPayload(st, inp))]
                              else if st.joined then [SendLora(ExpectedPayload(st, inp), ConfirmRetries)]
                              else [])
      && (Log(DrdyTimeout) in r.actions <==> st.hasRak12022 && !DataReady.Wait(inp.drdy, 0).ready)
  {
    if Status !in st.pending then Step(st, [])
    else
      var prepared := Prepare(st, inp);
      var buffer := Replay(prepared, st.buffer);
      PrepareFacts(st, inp, st.buffer);
      var sent := Dispatch(st, buffer, inp.submit);
      CycleFacts(st, inp, prepared, sent);
      Step(Clear(st, Status).(buffer := buffer), prepared + sent)
  }

  lemma CycleFacts(st: AppState, inp: TimerInput, prepared: seq<Action>, sent: seq<Action>)
    requires st.hasRak12022 ==> DataReady.Covers(inp.drdy)
    requires prepared == Prepare(st, inp)
    requires sent == Dispatch(st, ExpectedPayload(st, inp), inp.submit)
    ensures Replay(prepared + sent, st.buffer) == ExpectedPayload(st, inp)
    ensures Sends(prepared + sent) == Sends(sent)
    ensures Effects(prepared + sent) == Effects(prepared) + Sends(sent)
    ensures Log(DrdyTimeout) in prepared + sent <==> Log(DrdyTimeout) in prepared
  {
    PrepareFacts(st, inp, st.buffer);
    ViewsAppend(prepared, sent);
    ReplayAppend(prepared, sent, st.buffer);
    ReplayNoEncoderCall(sent, ExpectedPayload(st, inp));
    EffectsOfDispatch(sent);
  }

  /** The payload the cycle hands to the radio, whatever the encoder held before. */
  lemma PrepareFacts(st: AppState, inp: TimerInput, p: seq<Entry>)
    requires st.hasRak12022 ==> DataReady.Covers(inp.drdy)
    ensures Replay(Prepare(st, inp), p) == ExpectedPayload(st, inp)
    ensures Sends(Prepare(st, inp)) == []
    ensures Effects(Prepare(st, inp))
            == [ResetPayload, AddEntry(Voltage(inp.battery))]
               + (if TemperatureGate(st, inp.reading) then [AddEntry(Temperature(inp.reading.celsius))] else [])
    ensures Log(DrdyTimeout) in Prepare(st, inp) <==> st.hasRak12022 && !DataReady.Wait(inp.drdy, 0).ready
  {
    var head: seq<Action> := [ResetPayload, AddEntry(Voltage(inp.battery))];
    var acq := if st.hasRak12022 then Acquire(inp.drdy, inp.reading) else [];
    assert Prepare(st, inp) == head + acq;
    HeadFacts(inp.battery, p);
    SensorFacts(st, inp, acq);
    ReplayAppend(head, acq, p);
    ViewsAppend(head, acq);
  }

  /** The sensor part of the cycle: present only with the sensor, it adds
      the gated temperature and sends nothing. */
  lemma SensorFacts(st: AppState, inp: TimerInput, acq: seq<Action>)
    requires st.hasRak12022 ==> DataReady.Covers(inp.drdy)
    requires acq == if st.hasRak12022 then Acquire(inp.drdy, inp.reading) else []
    ensures Replay(acq, [Voltage(inp.battery)]) == ExpectedPayload(st, inp)
    ensures Sends(acq) == []
    ensures Effects(acq)
            == if TemperatureGate(st, inp.reading) then [AddEntry(Temperature(inp.reading.celsius))] else []
    ensures Log(DrdyTimeout) in acq <==> st.hasRak12022 && !DataReady.Wait(inp.drdy, 0).ready
  {
    CollectNone(acq, SendPart);
    if st.hasRak12022 {
      AcquireFacts(inp.drdy, inp.reading, [Voltage(inp.battery)]);
    } else {
      CollectNone(acq, EffectPart);
    }
  }

  /** Resetting the payload and adding the voltage leaves exactly the voltage. */
  lemma HeadFacts(battery: real, p: seq<Entry>)
    ensures Replay([ResetPayload, AddEntry(Voltage(battery))], p) == [Voltage(battery)]
    ensures Sends([ResetPayload, AddEntry(Voltage(battery))]) == []
    ensures Effects([ResetPayload, AddEntry(Voltage(battery))]) == [ResetPayload, AddEntry(Voltage(battery))]
  {
    assert [ResetPayload, AddEntry(Voltage(battery))] == [ResetPayload] + [AddEntry(Voltage(battery))];
    ViewsAppend([ResetPayload], [AddEntry(Voltage(battery))]);
    ViewsOne(ResetPayload);
    ViewsOne(AddEntry(Voltage(battery)));
    ReplayAppend([ResetPayload], [AddEntry(Voltage(battery))], p);
    ReplayOne(ResetPayload, p);
    ReplayOne(AddEntry(Voltage(battery)), []);
  }

  /** The sensor block adds the temperature, and nothing else, exactly when
      the resistance is non-zero. */
  lemma AcquireFacts(drdy: seq<DataReady.Sample>, reading: Reading, p: seq<Entry>)
    requires DataReady.Covers(drdy)
    ensures Replay(Acquire(drdy, reading), p)
            == p + (if reading.resistance != 0.0 then [Temperature(reading.celsius)] else [])
    ensures Effects(Acquire(drdy, reading)) == TemperatureEntry(reading)
  {
    var timeout := TimeoutLog(drdy);
    var temperature := TemperatureEntry(reading);
    var faults := LogFaults(FaultOrder, reading.faults);
    assert Acquire(drdy, reading) == timeout + (temperature + faults);
    AcquireReplay(timeout, temperature, faults, p);
    AcquireEffects(timeout, temperature, faults);
  }

  lemma AcquireReplay(timeout: seq<Action>, temperature: seq<Action>, faults: seq<Action>, p: seq<Entry>)
    requires forall i :: 0 <= i < |timeout| ==> timeout[i].Log?
    requires forall i :: 0 <= i < |faults| ==> faults[i].Log?
    requires |temperature| <= 1 && forall i :: 0 <= i < |temperature| ==> temperature[i].AddEntry?
    ensures Replay(timeout + (temperature + faults), p)
            == p + (if |temperature| == 1 then [temperature[0].entry] else [])
  {
    ReplayAppend(timeout, temperature + faults, p);
    ReplayNoEncoderCall(timeout, p);
    ReplayAppend(temperature, faults, p);
    ReplayNoEncoderCall(faults, Replay(temperature, p));
    if |temperature| == 1 {
      assert temperature == [temperature[0]];
      ReplayOne(temperature[0], p);
    }
  }

  lemma AcquireEffects(timeout: seq<Action>, temperature: seq<Action>, faults: seq<Action>)
    requires forall i :: 0 <= i < |timeout| ==> timeout[i].Log?
    requires forall i :: 0 <= i < |faults| ==> faults[i].Log?
    requires |temperature| <= 1 && forall i :: 0 <= i < |temperature| ==> temperature[i].AddEntry?
    ensures Effects(timeout + (temperature + faults)) == temperature
  {
    ViewsAppend(timeout, temperature + faults);
    ViewsAppend(temperature, faults);
    CollectNone(timeout, EffectPart);
    CollectNone(faults, EffectPart);
    if |temperature| == 1 {
      assert temperature == [temperature[0]];
      ViewsOne(temperature[0]);
    }
  }

  /** What the radio hand-off does apart from logging is its sends. */
  lemma {:induction false} EffectsOfDispatch(acts: seq<Action>)
    requires forall i :: 0 <= i < |acts| ==> acts[i].Log? || IsSend(acts[i])
    ensures Effects(acts) == Sends(acts)
  {
    if |acts| > 0 {
      EffectsOfDispatch(acts[1..]);
    }
  }

  /** The effects of a cycle, log records aside, are its encoder calls and its
      sends, and depend only on the settings, the battery voltage, and the
      temperature and resistance read. */
  lemma EffectsOfCycle(st: AppState, inp: TimerInput)
    requires Status in st.pending
    requires st.hasRak12022 ==> DataReady.Covers(inp.drdy)
    ensures Effects(AppEvent(st, inp).actions)
            == [ResetPayload, AddEntry(Voltage(inp.battery))]
               + (if TemperatureGate(st, inp.reading) then [AddEntry(Temperature(inp.reading.celsius))] else [])
               + Sends(AppEvent(st, inp).actions)
  {
    PrepareFacts(st, inp, st.buffer);
    CycleFacts(st, inp, Prepare(st, inp), Dispatch(st, ExpectedPayload(st, inp), inp.submit));
  }

  /** The fault bits only add log records: the state and every other effect
      of the cycle are the same whatever faults the sensor reports. */
  lemma FaultsOnlyLog(st: AppState, inp: TimerInput, faults: set<Fault>)
    requires Status in st.pending && st.hasRak12022 ==> DataReady.Covers(inp.drdy)
    ensures var inp' := inp.(reading := inp.reading.(faults := faults));
      && AppEvent(st, inp').state == AppEvent(st, inp).state
      && Effects(AppEvent(st, inp').actions) == Effects(AppEvent(st, inp).actions)
  {
    var inp' := inp.(reading := inp.reading.(faults := faults));
    if Status in st.pending {
      EffectsOfCycle(st, inp);
      EffectsOfCycle(st, inp');
    }
  }

  /** The answer of `send_lora_packet` is only logged. */
  lemma SubmitResultOnlyLogged(st: AppState, inp: TimerInput, submit: SubmitResult)
    requires Status in st.pending && st.hasRak12022 ==> DataReady.Covers(inp.drdy)
    ensures var inp' := inp.(submit := submit);
      && AppEvent(st, inp').state == AppEvent(st, inp).state
      && Effects(AppEvent(st, inp').actions) == Effects(AppEvent(st, inp).actions)
  {
    var inp' := inp.(submit := submit);
    if Status in st.pending {
      EffectsOfCycle(st, inp);
      EffectsOfCycle(st, inp');
    }
  }

  /** A DRDY timeout is only logged: the reading is taken and used either way. */
  lemma DrdyTimeoutOnlyLogged(st: AppState, inp: TimerInput, drdy: seq<DataReady.Sample>)
    requires Status in st.pending && st.hasRak12022 ==> DataReady.Covers(inp.drdy) && DataReady.Covers(drdy)
    ensures var inp' := inp.(drdy := drdy);
      && AppEvent(st, inp').state == AppEvent(st, inp).state
      && Effects(AppEvent(st, inp').actions) == Effects(AppEvent(st, inp).actions)
  {
    var inp' := inp.(drdy := drdy);
    if Status in st.pending {
      EffectsOfCycle(st, inp);
      EffectsOfCycle(st, inp');
    }
  }
}
