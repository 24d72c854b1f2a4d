/**
 The application's process-wide state and the observable effects of its
 event handlers. Every handler is a pure step from a state to a new state
 and the ordered list of calls it makes into the framework, the radio
 stack, the payload encoder and the AT interface.
 */
module App {
  import opened Common

  /** Event flags of `g_task_event_type` that the application consumes. */
  datatype Event = Status | BleData | LoraData | LoraJoinFin | LoraTxFin

  /** The pending event flags, the payload encoder's buffer, `send_fail`,
      `has_rak12022`, `g_lpwan_has_joined`, the LoRaWAN settings the
      handlers read and `g_enable_ble`. */
  datatype AppState = AppState(
    pending: set<Event>,
    buffer: seq<Entry>,
    sendFail: uint8,
    hasRak12022: bool,
    joined: bool,
    lorawanEnable: bool,
    confirmed: bool,
    bleEnabled: bool)

  /** A Cayenne LPP channel entry, by measurement; the byte encoding belongs
      to the encoder library. */
  datatype Entry = Voltage(volts: real) | Temperature(celsius: real)

  /** `lmh_error_status` of a LoRaWAN submission. */
  datatype SubmitResult = LmhSuccess | LmhBusy | LmhError

  /** The fault bits of the MAX31865 status register the cycle reports. */
  datatype Fault =
    | RtdHighThreshold | RtdLowThreshold | RefinHigh | RefinLowOpen
    | RtdinLowOpen | VoltageOutOfRange

  /** Order in which the cycle tests the fault bits. */
  const FaultOrder: seq<Fault> :=
    [RtdHighThreshold, RtdLowThreshold, RefinHigh, RefinLowOpen, RtdinLowOpen, VoltageOutOfRange]

  /** Debug-log records that carry a decision of the handlers. */
  datatype Note =
    | DrdyTimeout
    | FaultSeen(fault: Fault)
    | Submitted(result: SubmitResult)
    | NotJoined

  datatype Action =
    | ResetPayload                                // payload.reset()
    | AddEntry(entry: Entry)                      // payload.addVoltage / addTemperature
    | SendLora(buffer: seq<Entry>, retries: int)  // send_lora_packet(buf, size, retries)
    | SendP2p(buffer: seq<Entry>)                 // send_p2p_packet(buf, size)
    | RequestJoin                                 // lmh_join()
    | DeviceReset                                 // api_reset()
    | AtLine(line: string)                        // AT_PRINTF
    | AtInput(b: uint8)                           // at_serial_input(b)
    | Log(note: Note)                             // MYLOG

  /** State after a handler and what it did, in order. */
  datatype Step = Step(state: AppState, actions: seq<Action>)

  /** The encoder's buffer after one action. */
  function Apply(a: Action, p: seq<Entry>): seq<Entry> {
    match a
    case ResetPayload => []
    case AddEntry(e) => p + [e]
    case _ => p
  }

  /** The encoder's buffer after replaying `actions` on buffer `p`. */
  function Replay(actions: seq<Action>, p: seq<Entry>): seq<Entry> {
    if |actions| == 0 then p else Replay(actions[1..], Apply(actions[0], p))
  }

  lemma {:induction false} ReplayAppend(a: seq<Action>, b: seq<Action>, p: seq<Entry>)
    ensures Replay(a + b, p) == Replay(b, Replay(a, p))
  {
    if |a| == 0 {
      assert a + b == b;
    } else {
      assert (a + b)[0] == a[0];
      assert (a + b)[1..] == a[1..] + b;
      ReplayAppend(a[1..], b, Apply(a[0], p));
    }
  }

  lemma ReplayOne(a: Action, p: seq<Entry>)
    ensures Replay([a], p) == Apply(a, p)
  {
    assert [a][1..] == [];
  }

  predicate IsSend(a: Action) {
    a.SendLora? || a.SendP2p?
  }

  predicate IsEncoderCall(a: Action) {
    a.ResetPayload? || a.AddEntry?
  }

  /** The concatenation of `f` over `actions`, in order. */
  function Collect<U>(actions: seq<Action>, f: Action -> seq<U>): seq<U> {
    if |actions| == 0 then [] else f(actions[0]) + Collect(actions[1..], f)
  }

  lemma {:induction false} CollectAppend<U>(a: seq<Action>, b: seq<Action>, f: Action -> seq<U>)
    ensures Collect(a + b, f) == Collect(a, f) + Collect(b, f)
  {
    if |a| == 0 {
      assert a + b == b;
    } else {
      assert (a + b)[0] == a[0];
      assert (a + b)[1..] == a[1..] + b;
      CollectAppend(a[1..], b, f);
    }
  }

  function SendPart(a: Action): seq<Action> {
    if IsSend(a) then [a] else []
  }

  function LinePart(a: Action): seq<string> {
    if a.AtLine? then [a.line] else []
  }

  function InputPart(a: Action): seq<uint8> {
    if a.AtInput? then [a.b] else []
  }

  function EffectPart(a: Action): seq<Action> {
    if a.Log? then [] else [a]
  }

  /** The radio submissions among `actions`, in order. */
  function Sends(actions: seq<Action>): seq<Action> {
    Collect(actions, SendPart)
  }

  /** The AT lines among `actions`, in order. */
  function Lines(actions: seq<Action>): seq<string> {
    Collect(actions, LinePart)
  }

  /** The bytes given to the AT interpreter, in order. */
  function Inputs(actions: seq<Action>): seq<uint8> {
    Collect(actions, InputPart)
  }

  /** Everything except debug-log records. */
  function Effects(actions: seq<Action>): seq<Action> {
    Collect(actions, EffectPart)
  }

  lemma CollectOne<U>(a: Action, f: Action -> seq<U>)
    ensures Collect([a], f) == f(a)
  {
    assert [a][1..] == [];
  }

  predicate IsJoin(a: Action) {
    a.RequestJoin?
  }

  predicate IsReset(a: Action) {
    a.DeviceReset?
  }

  /** Number of `lmh_join()` calls. */
  function Joins(actions: seq<Action>): nat {
    Count(actions, IsJoin)
  }

  /** Number of `api_reset()` calls. */
  function Resets(actions: seq<Action>): nat {
    Count(actions, IsReset)
  }

  lemma {:induction false} CollectNone<U>(a: seq<Action>, f: Action -> seq<U>)
    requires forall i :: 0 <= i < |a| ==> f(a[i]) == []
    ensures Collect(a, f) == []
  {
    if |a| > 0 {
      assert f(a[0]) == [];
      CollectNone(a[1..], f);
    }
  }

  /** Replaying actions that are not encoder calls leaves the buffer alone. */
  lemma {:induction false} ReplayNoEncoderCall(a: seq<Action>, p: seq<Entry>)
    requires forall i :: 0 <= i < |a| ==> !IsEncoderCall(a[i])
    ensures Replay(a, p) == p
  {
    if |a| > 0 {
      assert Apply(a[0], p) == p;
      ReplayNoEncoderCall(a[1..], p);
    }
  }

  lemma ViewsAppend(a: seq<Action>, b: seq<Action>)
    ensures Sends(a + b) == Sends(a) + Sends(b)
    ensures Lines(a + b) == Lines(a) + Lines(b)
    ensures Inputs(a + b) == Inputs(a) + Inputs(b)
    ensures Effects(a + b) == Effects(a) + Effects(b)
    ensures Joins(a + b) == Joins(a) + Joins(b)
    ensures Resets(a + b) == Resets(a) + Resets(b)
  {
    CollectAppend(a, b, SendPart);
    CollectAppend(a, b, LinePart);
    CollectAppend(a, b, InputPart);
    CollectAppend(a, b, EffectPart);
    CountAppend(a, b, IsJoin);
    CountAppend(a, b, IsReset);
  }

  lemma ViewsOne(a: Action)
    ensures Sends([a]) == SendPart(a)
    ensures Lines([a]) == LinePart(a)
    ensures Inputs([a]) == InputPart(a)
    ensures Effects([a]) == EffectPart(a)
    ensures Joins([a]) == if IsJoin(a) then 1 else 0
    ensures Resets([a]) == if IsReset(a) then 1 else 0
  {
    assert [a][1..] == [];
    CollectOne(a, SendPart);
    CollectOne(a, LinePart);
    CollectOne(a, InputPart);
    CollectOne(a, EffectPart);
  }

  /** The state with flag `e` cleared and nothing else changed. */
  function Clear(st: AppState, e: Event): AppState {
    st.(pending := st.pending - {e})
  }
}
