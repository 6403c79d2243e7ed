/** `dtls_client.c` in its own form: the fields of the request as an object, with the branches of the
    main loop as methods proved against `RequestSteps`. */
module DtlsClient {
  import opened Bytes
  import CoapClient
  import opened RequestSteps

  /** `network_timeout_scale`. */
  method NetworkTimeoutScale(timeout: nat, factor: nat) returns (scaled: nat)
    requires timeout < UINT16
    ensures scaled == Scaled(timeout, factor) % UINT16
  {
    if factor > 100 {
      scaled := timeout * factor / 100 % UINT16;
    } else {
      scaled := timeout;
    }
  }

  /** The step a parsed message stands for. */
  function Received(result: CoapClient.ParseResult): Event {
    match result
    case ParseNone => Unrelated
    case ParseIgnored => Unrelated
    case ParseReset => Reset
    case ParseAck => Ack
    case ParseResponse => Response
    case ParseConResponse => ConResponse
  }

  class Request {
    var state: RequestState
    var retransmission: nat
    var timeout: nat
    var loops: nat
    var noResponse: bool
    var connected: bool
    var connectedToSend: bool
    var lteSend: bool
    ghost var base: nat

    ghost function View(): App
      reads this
    {
      App(state, retransmission, timeout, loops, noResponse, connected, connectedToSend, lteSend, base)
    }

    method SetRequestState(next: RequestState)
      modifies this`state
      ensures View() == SetState(old(View()), next)
    {
      if state != next {
        if next == RECEIVE && noResponse {
          state := WAIT_SUSPEND;
        } else {
          state := next;
        }
      }
    }

    method AdjustInitialTimeout(env: Env, force: bool)
      requires env.coapTimeout < UINT16
      modifies this`timeout, this`base
      ensures View() == AdjustTimeout(old(View()), env, force)
    {
      var scaled := NetworkTimeoutScale(env.coapTimeout, env.scale);
      if force || scaled > timeout {
        timeout := scaled;
        base := Scaled(env.coapTimeout, env.scale);
      }
    }

    /** `sendto_peer` without a pending handshake. */
    method SendToPeer(env: Env)
      requires env.coapTimeout < UINT16
      modifies this
      ensures View() == RequestSteps.SendToPeer(old(View()), env)
    {
      if env.send == NoMessage {
        SetRequestState(WAIT_SUSPEND);
      } else {
        var first := retransmission == 0;
        connectedToSend := false;
        lteSend := true;
        if env.send == SendFailed {
          state := WAIT_SUSPEND;
          return;
        }
        if env.send == Sent {
          if connected {
            lteSend := false;
          }
          if first {
            AdjustInitialTimeout(env, true);
          }
        }
      }
      if connected {
        SetRequestState(RECEIVE);
      }
    }

    /** The resend in the timeout branch. */
    method Resend(env: Env)
      requires env.coapTimeout < UINT16
      modifies this
      ensures View() == RequestSteps.Resend(old(View()), env)
    {
      hide Scaled, RequestSteps.SendToPeer;
      loops := 0;
      if retransmission == 0 {
        AdjustInitialTimeout(env, false);
      }
      timeout := timeout * 2 % UINT16;
      retransmission := retransmission + 1;
      SetRequestState(SEND);
      SendToPeer(env);
    }

    /** The timeout branch of the main loop for a running request. */
    method PollTimeout(env: Env)
      requires env.coapTimeout < UINT16
      modifies this
      ensures View() == RequestSteps.PollTimeout(old(View()), env)
    {
      hide Scaled, RequestSteps.Resend;
      loops := loops + 1;
      if state == SEND {
        if connectedToSend {
          connectedToSend := false;
          loops := 0;
          if retransmission == 0 {
            AdjustInitialTimeout(env, true);
          }
          SetRequestState(RECEIVE);
        } else if loops > 60 {
          state := WAIT_SUSPEND;
        }
      } else if state == RECEIVE {
        var limit: int := timeout;
        if !connected {
          if retransmission >= COAP_MAX_RETRANSMISSION {
            limit := loops - 1;
          } else {
            limit := limit + env.extra;
          }
        }
        if loops > limit {
          if retransmission < COAP_MAX_RETRANSMISSION {
            Resend(env);
          } else {
            state := WAIT_SUSPEND;
          }
        }
      } else if state == WAIT_RESPONSE {
        if loops > 60 {
          state := WAIT_SUSPEND;
        }
      }
    }

    /** The switch of `read_from_peer`; a confirmable response is acknowledged in the same turn of the main
        loop, which ends the request. */
    method ReadFromPeer(result: CoapClient.ParseResult)
      modifies this`state
      ensures View() == Step(old(View()), Received(result))
    {
      match result {
        case ParseNone =>
        case ParseIgnored =>
        case ParseReset =>
          if Pending(state) { state := WAIT_SUSPEND; }
        case ParseAck =>
          if state == SEND || state == RECEIVE { SetRequestState(WAIT_RESPONSE); }
        case ParseResponse =>
          if Pending(state) { state := WAIT_SUSPEND; }
        case ParseConResponse =>
          if state != NONE {
            SetRequestState(SEND_ACK);
            state := WAIT_SUSPEND;
          }
      }
    }

    /** The connect part of `dtls_lte_state_handler`. */
    method LteConnected(active: bool)
      modifies this
      ensures View() == RequestSteps.LteConnected(old(View()), active)
    {
      var previous := connected;
      connected := active;
      if active && !previous {
        connectedToSend := false;
        var wasSend := lteSend;
        lteSend := false;
        if wasSend && state == SEND {
          connectedToSend := true;
        }
      }
    }
  }
}
