/** What ends or holds a request: replies stop the retransmission for good, an unconnected modem waits longer,
    and the state a message starts in. */
module RequestReplies {
  import opened Bytes
  import opened RequestSteps
  import opened RequestRuns

  /** The scale is in percent, at least 100, and rounds down. */
  lemma ScaledRounds(timeout: nat, scale: nat)
    ensures
      var factor := if scale > 100 then scale else 100;
      100 * Scaled(timeout, scale) <= timeout * factor < 100 * Scaled(timeout, scale) + 100
  {
    if scale > 100 { DivFloor(timeout * scale, 100); }
  }

  // ----- replies

  /** Nothing restarts a request that is over. */
  lemma {:induction false} OverStaysOver(a: App, evs: seq<Event>)
    requires a.state == WAIT_SUSPEND
    ensures
      var r := Run(a, evs);
      r.state == WAIT_SUSPEND && r.retransmission == a.retransmission && r.timeout == a.timeout
    decreases |evs|
  {
    hide Scaled, Resend;
    if evs != [] { OverStaysOver(Step(a, evs[0]), evs[1..]); }
  }

  /** Waiting for a separate response: no event leads back to sending, and every poll timeout counts. */
  lemma {:induction false} WaitingStays(a: App, evs: seq<Event>)
    requires a.state == WAIT_RESPONSE
    ensures
      var r := Run(a, evs);
      && r.state in {WAIT_RESPONSE, WAIT_SUSPEND}
      && r.retransmission == a.retransmission && r.timeout == a.timeout
      && (r.state == WAIT_RESPONSE ==> r.loops == a.loops + Polls(evs) && (Polls(evs) > 0 ==> r.loops <= 60))
    decreases |evs|
  {
    hide Scaled, Resend;
    if evs != [] {
      var b := Step(a, evs[0]);
      if b.state == WAIT_RESPONSE {
        WaitingStays(b, evs[1..]);
      } else {
        OverStaysOver(b, evs[1..]);
      }
    }
  }

  /** An acknowledgement stops the retransmission: no later event sends the message again or waits for another
      acknowledgement, and the request ends within 61 poll timeouts. */
  lemma AckStops(a: App, evs: seq<Event>)
    requires a.state in {SEND, RECEIVE}
    ensures
      var r := Run(Step(a, Ack), evs);
      && r.retransmission == a.retransmission && r.timeout == a.timeout
      && r.state !in {SEND, RECEIVE}
      && (Polls(evs) >= 61 ==> r.state == WAIT_SUSPEND)
    ensures Step(a, Ack).state == WAIT_RESPONSE && Step(a, Ack).loops == a.loops
  {
    hide Run;
    WaitingStays(Step(a, Ack), evs);
  }

  /** A reset and a response, confirmable or not, end every pending request for good. */
  lemma AnswerEnds(a: App, ev: Event, evs: seq<Event>)
    requires a.state in {SEND, RECEIVE, WAIT_RESPONSE, SEND_ACK} && ev in {Reset, Response, ConResponse}
    ensures
      var r := Run(Step(a, ev), evs);
      r.state == WAIT_SUSPEND && r.retransmission == a.retransmission && r.timeout == a.timeout
  {
    OverStaysOver(Step(a, ev), evs);
  }

  /** What nobody waits for changes nothing. */
  lemma StrayIgnored(a: App)
    ensures Step(a, Unrelated) == a
    ensures a.state !in {SEND, RECEIVE} ==> Step(a, Ack) == a
    ensures a.state in {NONE, WAIT_SUSPEND, INCOMING_DATA} ==> Step(a, Reset) == Step(a, Response) == a
    ensures a.state == NONE ==> Step(a, ConResponse) == a
  {
  }

  // ----- not connected

  lemma {:induction false} UnconnectedPolls(a: App, env: Env, n: nat)
    requires a.state == RECEIVE && !a.connected && a.retransmission < 3 && a.loops + n <= a.timeout + env.extra
    ensures Polled(a, env, n) == a.(loops := a.loops + n)
    decreases n
  {
    hide Resend;
    if n > 0 {
      assert Repeat(Poll(env), n)[1..] == Repeat(Poll(env), n - 1);
      UnconnectedPolls(a.(loops := a.loops + 1), env, n - 1);
    }
  }

  /** While the modem is not connected a transmission is given the extra time before the next one, and the
      last one is given up with the next poll timeout. */
  lemma UnconnectedWaits(a: App, env: Env)
    requires a.state == RECEIVE && !a.connected && a.loops == 0
    ensures a.retransmission < 3 ==>
      && Polled(a, env, a.timeout + env.extra) == a.(loops := a.timeout + env.extra)
      && Polled(a, env, a.timeout + env.extra + 1).retransmission == a.retransmission + 1
    ensures a.retransmission >= 3 ==> Polled(a, env, 1).state == WAIT_SUSPEND
  {
    var p := Poll(env);
    var last := if a.retransmission < 3 then a.(loops := a.timeout + env.extra) else a;
    OnePoll(last, env);
    if a.retransmission < 3 {
      UnconnectedPolls(a, env, a.timeout + env.extra);
      RepeatSum(a, p, a.timeout + env.extra, 1);
      ResendOutcome(last.(loops := last.loops + 1), env);
    }
  }

  lemma OnePoll(a: App, env: Env)
    ensures Run(a, Repeat(Poll(env), 1)) == Step(a, Poll(env))
  {
    hide Step;
    assert Repeat(Poll(env), 1) == [Poll(env)] && [Poll(env)][1..] == [];
    assert Run(Step(a, Poll(env)), []) == Step(a, Poll(env));
  }

  /** The connection alone changes neither the state of a request nor its timeout; a connect edge passes a send
      that waits for it on to the next poll timeout. */
  lemma ConnectionKeepsRequest(a: App, active: bool)
    ensures
      var r := Step(a, Lte(active));
      && r.connected == active
      && r == a.(connected := active, connectedToSend := r.connectedToSend, lteSend := r.lteSend)
      && (active && !a.connected && a.state == SEND ==> r.connectedToSend == a.lteSend && !r.lteSend)
      && (active == a.connected ==> r == a)
  {
  }

  // ----- the start of a message

  function StateAfterSend(connected: bool, noResponse: bool, send: SendResult): RequestState {
    match send
    case SendFailed => WAIT_SUSPEND
    case NoMessage => if connected && !noResponse then RECEIVE else WAIT_SUSPEND
    case _ => if !connected then SEND else if noResponse then WAIT_SUSPEND else RECEIVE
  }

  /** The state of a message after its first send: it waits for its reply, or to be connected, or it is over;
      the first timeout is the scaled one once it was sent. */
  lemma MessageStarted(a: App, noResponse: bool, env: Env)
    requires env.coapTimeout < UINT16
    ensures
      var s := StartMessage(a, noResponse, env);
      && s.retransmission == 0 && s.loops == 0 && s.connected == a.connected && s.noResponse == noResponse
      && s.timeout == (if env.send.Sent? then Scaled(env.coapTimeout, env.scale) % UINT16 else env.coapTimeout)
      && s.state == StateAfterSend(a.connected, noResponse, env.send)
      && (s.state == SEND ==> s.lteSend && !s.connectedToSend)
  {
    hide Scaled;
  }

  /** A sent message that expects no response ends with the poll timeout after the modem is connected. */
  lemma ConnectedWithoutResponse(s: App, env: Env)
    requires s.state == SEND && !s.connected && s.noResponse && s.lteSend
    ensures Run(s, [Lte(true), Poll(env)]).state == WAIT_SUSPEND
  {
    hide Scaled;
    var a, b := Lte(true), Poll(env);
    assert [a, b][1..] == [b] && [b][1..] == [];
    assert Run(Step(s, a), [b]) == Step(Step(s, a), b);
  }
}
