/** One CoAP request in `dtls_client.c` as steps: the send, the poll timeouts of the main loop, and what
    arrives from the modem and the peer. The peer session is established: no DTLS handshake is pending. */
module RequestSteps {
  import opened Bytes
  import opened Flash

  const COAP_MAX_RETRANSMISSION := 3
  const UINT16: nat := 0x1_0000

  datatype RequestState = NONE | SEND | RECEIVE | WAIT_RESPONSE | SEND_ACK | WAIT_SUSPEND | INCOMING_DATA

  /** The fields of `dtls_app_data_t` and the LTE bits that steer a request. `base` records the timeout
      set for the first transmission, without the 16-bit cut. */
  datatype App = App(
    state: RequestState, retransmission: nat, timeout: nat, loops: nat, noResponse: bool,
    connected: bool, connectedToSend: bool, lteSend: bool, base: nat)

  /** What the environment adds to a step: the time scale of the modem, the extra wait while idle, the
      result of sending, and the configured `coap_timeout`. */
  datatype Env = Env(coapTimeout: nat, scale: nat, extra: nat, send: SendResult)

  /** `sendto`: accepted, refused for now (EAGAIN, ECANCELED), failed on an intact socket, or there is no
      message any more. */
  datatype SendResult = Sent | Again | SendFailed | NoMessage

  predicate Pending(s: RequestState) { s in {SEND, RECEIVE, WAIT_RESPONSE, SEND_ACK} }

  /** `network_timeout_scale` without the cut to 16 bits. */
  function Scaled(timeout: nat, scale: nat): nat {
    if scale > 100 then timeout * scale / 100 else timeout
  }

  /** `network_adjust_initial_timeout`. */
  function AdjustTimeout(a: App, env: Env, force: bool): (a': App)
  {
    var timeout := Scaled(env.coapTimeout, env.scale) % UINT16;
    if force || timeout > a.timeout
    then a.(timeout := timeout, base := Scaled(env.coapTimeout, env.scale)) else a
  }

  /** A finished request, with success or failure: `dtls_coap_next`. */
  function Done(a: App): App { a.(state := WAIT_SUSPEND) }

  /** `dtls_coap_set_request_state`: without a response to wait for, being sent is success. */
  function SetState(a: App, state: RequestState): (a': App) {
    if a.state == state then a
    else if state == RECEIVE && a.noResponse then Done(a)
    else a.(state := state)
  }

  /** `sendto_peer` with `send_to_peer`. */
  function SendToPeer(a: App, env: Env): (a': App) {
    match env.send
    case NoMessage =>
      var c := SetState(a, WAIT_SUSPEND);
      if c.connected then SetState(c, RECEIVE) else c
    case SendFailed => Done(a.(connectedToSend := false, lteSend := true))
    case Again =>
      var c := a.(connectedToSend := false, lteSend := true);
      if c.connected then SetState(c, RECEIVE) else c
    case Sent =>
      var c := a.(connectedToSend := false, lteSend := !a.connected);
      var d := if c.retransmission == 0 then AdjustTimeout(c, env, true) else c;
      if d.connected then SetState(d, RECEIVE) else d
  }

  /** A message of the application: `coap_timeout` unscaled, then the first send. */
  function StartMessage(a: App, noResponse: bool, env: Env): (a': App) {
    SendToPeer(a.(loops := 0, state := SEND, retransmission := 0, timeout := env.coapTimeout % UINT16,
                  base := env.coapTimeout, noResponse := noResponse), env)
  }

  /** A download request: the timeout of the request before is still set when the first send happens. */
  function StartDownload(a: App, env: Env): (a': App) {
    SendToPeer(a.(loops := 0, state := SEND, retransmission := 0, base := a.timeout), env)
  }

  /** The doubling of the timeout and the resend. */
  function Resend(a: App, env: Env): (a': App) {
    var b := if a.retransmission == 0 then AdjustTimeout(a.(loops := 0), env, false) else a.(loops := 0);
    SendToPeer(SetState(b.(timeout := b.timeout * 2 % UINT16, retransmission := b.retransmission + 1), SEND), env)
  }

  /** Poll timeouts to wait in RECEIVE before giving up this transmission. */
  function WaitLimit(a: App, loops: nat, extra: nat): int {
    if a.connected then a.timeout
    else if a.retransmission >= COAP_MAX_RETRANSMISSION then loops - 1
    else a.timeout + extra
  }

  /** The timeout branch of `dtls_loop`. */
  function PollTimeout(a: App, env: Env): (a': App) {
    var b := a.(loops := a.loops + 1);
    match a.state
    case SEND =>
      if a.connectedToSend then
        var c := b.(connectedToSend := false, loops := 0);
        SetState(if c.retransmission == 0 then AdjustTimeout(c, env, true) else c, RECEIVE)
      else if b.loops > 60 then Done(b) else b
    case RECEIVE =>
      if b.loops > WaitLimit(b, b.loops, env.extra) then
        if b.retransmission < COAP_MAX_RETRANSMISSION then Resend(b, env) else Done(b)
      else b
    case WAIT_RESPONSE => if b.loops > 60 then Done(b) else b
    case _ => b
  }

  /** The LTE connected state changes. */
  function LteConnected(a: App, active: bool): (a': App) {
    if active && !a.connected then
      a.(connected := true, connectedToSend := a.lteSend && a.state == SEND, lteSend := false)
    else a.(connected := active)
  }

  datatype Event =
    | Poll(env: Env)
    | Lte(active: bool)
    | Ack
    | Reset
    | Response
    | ConResponse
    | Unrelated

  function Step(a: App, ev: Event): (a': App) {
    match ev
    case Poll(env) => PollTimeout(a, env)
    case Lte(active) => LteConnected(a, active)
    case Ack => if a.state in {SEND, RECEIVE} then SetState(a, WAIT_RESPONSE) else a
    case Reset => if Pending(a.state) then Done(a) else a
    case Response => if Pending(a.state) then Done(a) else a
    case ConResponse => if a.state != NONE then Done(a) else a
    case Unrelated => a
  }

  function Run(a: App, evs: seq<Event>): (a': App)
    decreases |evs|
  {
    if evs == [] then a else Run(Step(a, evs[0]), evs[1..])
  }

  function Polls(evs: seq<Event>): nat {
    if evs == [] then 0 else (if evs[0].Poll? then 1 else 0) + Polls(evs[1..])
  }

  /** All polls of a run see the same `coap_timeout`, a time scale the modem reports, and at most
      `extra` seconds of additional wait. */
  ghost predicate Environment(evs: seq<Event>, coapTimeout: nat, extra: nat) {
    forall ev :: ev in evs && ev.Poll? ==>
      ev.env.coapTimeout == coapTimeout && 100 <= ev.env.scale <= 500 && ev.env.extra <= extra
  }
}
