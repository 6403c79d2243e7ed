/** When the doubled timeout of a download request fits its 16 bits. Other than a message, a download request
    starts with the timeout of the request before it, until its first send is accepted. */
module DownloadRequests {
  import opened Bytes
  import opened RequestSteps
  import opened RequestRuns

  /** All runs from this start of a download request obey the law. */
  ghost predicate DownloadLawful(a: App, env: Env, extra: nat) {
    forall evs | Environment(evs, env.coapTimeout, extra) ::
      Running(Run(StartDownload(a, env), evs).state) ==> TimeoutLaw(Run(StartDownload(a, env), evs))
  }

  /** What the start has to meet, by the result of its first send. */
  predicate DoublingFits(a: App, env: Env) {
    match env.send
    case SendFailed => true
    case NoMessage => !a.connected || a.noResponse || (env.coapTimeout <= 1638 && a.timeout <= 8191)
    case Again => a.noResponse || (env.coapTimeout <= 1638 && (!a.connected || a.timeout <= 8191))
    case Sent =>
      if a.noResponse then a.connected || Scaled(env.coapTimeout, env.scale) < UINT16
      else env.coapTimeout <= 1638
  }

  /** Not yet resent, and not waiting for a timeout: sending, or waiting for a separate response. */
  ghost predicate Parked(a: App) {
    a.state in {SEND, WAIT_RESPONSE} && a.retransmission == 0 && a.base == a.timeout
  }

  /** What every run keeps when the doubling fits. */
  ghost predicate Kept(a: App) {
    if a.noResponse then !Running(a.state) || Parked(a) else Lawful(a, 8191) || Parked(a)
  }

  lemma StepKept(a: App, ev: Event)
    requires Kept(a) && (ev.Poll? ==> ev.env.scale <= 500)
    requires ev.Poll? && !a.noResponse ==> ev.env.coapTimeout <= 1638
    ensures Kept(Step(a, ev)) && Step(a, ev).noResponse == a.noResponse
  {
    NoResponseStays(a, ev);
    hide Scaled, Resend;
    if !a.noResponse && Lawful(a, 8191) {
      StepLawful(a, ev, 8191);
    } else if ev.Poll? && !a.noResponse {
      Powers();
      ScaledBound(ev.env.coapTimeout, ev.env.scale);
    }
  }

  lemma NoResponseStays(a: App, ev: Event)
    ensures Step(a, ev).noResponse == a.noResponse
  {
    hide Scaled, Resend;
    if ev.Poll? { ResendNoResponse(a.(loops := a.loops + 1), ev.env); }
  }

  lemma ResendNoResponse(a: App, env: Env)
    ensures Resend(a, env).noResponse == a.noResponse
  {
    hide Scaled, SendToPeer;
    var b := Adjusted(a.(loops := 0), env);
    SendNoResponse(SetState(b.(timeout := b.timeout * 2 % UINT16, retransmission := b.retransmission + 1), SEND), env);
  }

  lemma SendNoResponse(a: App, env: Env)
    ensures SendToPeer(a, env).noResponse == a.noResponse
  {
    hide Scaled;
  }

  lemma {:induction false} RunKept(a: App, evs: seq<Event>, coapTimeout: nat, extra: nat)
    requires Kept(a) && Environment(evs, coapTimeout, extra) && (a.noResponse || coapTimeout <= 1638)
    ensures Running(Run(a, evs).state) ==> TimeoutLaw(Run(a, evs))
    decreases |evs|
  {
    hide Step;
    if evs == [] {
      Powers();
    } else {
      assert evs[0] in evs && forall ev :: ev in evs[1..] ==> ev in evs;
      StepKept(a, evs[0]);
      RunKept(Step(a, evs[0]), evs[1..], coapTimeout, extra);
    }
  }

  /** The state after the first send. */
  lemma Started(a: App, env: Env)
    requires a.timeout < UINT16
    ensures
      var s := StartDownload(a, env);
      && s.noResponse == a.noResponse && s.connected == a.connected && s.loops == 0 && s.retransmission == 0
      && (Running(s.state) <==>
           match env.send
           case SendFailed => false
           case NoMessage => a.connected && !a.noResponse
           case _ => !(a.connected && a.noResponse))
      && (Running(s.state) ==> s.state == if a.connected then RECEIVE else SEND)
      && (Running(s.state) && !a.connected ==> s.lteSend && !s.connectedToSend)
      && (env.send.Sent? ==> s.base == Scaled(env.coapTimeout, env.scale) && s.timeout == s.base % UINT16)
      && (!env.send.Sent? ==> s.base == s.timeout == a.timeout)
  {
    hide Scaled;
  }

  lemma FitsIsKept(a: App, env: Env)
    requires a.timeout < UINT16 && 100 <= env.scale <= 500 && DoublingFits(a, env)
    requires Running(StartDownload(a, env).state)
    ensures Kept(StartDownload(a, env)) && (a.noResponse || env.coapTimeout <= 1638)
    ensures StartDownload(a, env).noResponse == a.noResponse
  {
    Started(a, env);
    ScaledBound(env.coapTimeout, env.scale);
    Powers();
    hide StartDownload, Scaled;
  }

  lemma {:induction false} RunDone(a: App, evs: seq<Event>)
    requires !Running(a.state)
    ensures !Running(Run(a, evs).state)
    decreases |evs|
  {
    hide Scaled;
    if evs != [] { RunDone(Step(a, evs[0]), evs[1..]); }
  }

  /** A request that waits to be connected: the connect and a poll timeout set the first timeout. */
  lemma Connects(s: App, env: Env)
    requires s.state == SEND && !s.connected && !s.noResponse && s.lteSend && s.retransmission == 0
    ensures Run(s, [Lte(true), Poll(env)])
         == s.(connected := true, connectedToSend := false, lteSend := false, loops := 0, state := RECEIVE,
               base := Scaled(env.coapTimeout, env.scale), timeout := Scaled(env.coapTimeout, env.scale) % UINT16)
  {
    hide Scaled;
    var a, b := Lte(true), Poll(env);
    assert [a, b][1..] == [b] && [b][1..] == [];
    assert Run(Step(s, a), [b]) == Step(Step(s, a), b);
  }

  lemma WaitingToConnectBreaks(s: App, coapTimeout: nat, extra: nat) returns (evs: seq<Event>)
    requires s.state == SEND && !s.connected && !s.noResponse && s.lteSend && s.retransmission == 0
    requires 1638 < coapTimeout < UINT16
    ensures Environment(evs, coapTimeout, extra)
    ensures Running(Run(s, evs).state) && !TimeoutLaw(Run(s, evs))
  {
    hide Run, Step;
    Powers();
    var env := Env(coapTimeout, 500, 0, Sent);
    Connects(s, env);
    evs := [Lte(true), Poll(env)];
    if 5 * coapTimeout < UINT16 {
      var more := WaitingBreaks(Run(s, evs), coapTimeout, extra);
      RunAppend(s, evs, more);
      evs := evs + more;
    }
  }

  /** Without the condition there is a run in which the timeout is cut. */
  lemma MisfitBreaks(a: App, env: Env, extra: nat) returns (evs: seq<Event>)
    requires a.timeout < UINT16 && env.coapTimeout < UINT16 && 100 <= env.scale <= 500 && !DoublingFits(a, env)
    ensures Environment(evs, env.coapTimeout, extra)
    ensures Running(Run(StartDownload(a, env), evs).state) && !TimeoutLaw(Run(StartDownload(a, env), evs))
  {
    hide StartDownload, Scaled, Step;
    Started(a, env);
    Powers();
    var s := StartDownload(a, env);
    if s.base != s.timeout {
      evs := [];
    } else if a.connected {
      evs := WaitingBreaks(s, env.coapTimeout, extra);
    } else {
      evs := WaitingToConnectBreaks(s, env.coapTimeout, extra);
    }
  }

  /** For a download request: all runs obey the law exactly when, for a request that gets to wait for a
      response, `coap_timeout` is at most 1638 and the first send is accepted, or the modem is not connected
      yet, or the timeout of the request before is at most 8191. */
  lemma DownloadLawfulIff(a: App, env: Env, extra: nat)
    requires a.timeout < UINT16 && env.coapTimeout < UINT16 && 100 <= env.scale <= 500
    ensures DownloadLawful(a, env, extra) <==> DoublingFits(a, env)
  {
    hide StartDownload, Run, DoublingFits;
    if DoublingFits(a, env) {
      var s := StartDownload(a, env);
      forall evs | Environment(evs, env.coapTimeout, extra)
        ensures Running(Run(s, evs).state) ==> TimeoutLaw(Run(s, evs))
      {
        if Running(s.state) {
          FitsIsKept(a, env);
          RunKept(s, evs, env.coapTimeout, extra);
        } else {
          RunDone(s, evs);
        }
      }
    } else {
      var evs := MisfitBreaks(a, env, extra);
    }
  }

  /** The case does occur with a `coap_timeout` that is safe for messages: a message is answered after its
      third retransmission, and the first send of the download request after it is put off. */
  lemma StaleDownloadTimeout() returns (evs: seq<Event>, later: seq<Event>)
    ensures Environment(evs, 1638, 0) && Environment(later, 1638, 0)
    ensures
      var message := StartMessage(App(NONE, 0, 0, 0, false, true, false, false, 0), false, Env(1638, 500, 0, Sent));
      var a := Run(message, evs);
      var download := StartDownload(a, Env(1638, 500, 0, Again));
      && a.state == WAIT_SUSPEND && a.timeout == 65520
      && Running(Run(download, later).state) && !TimeoutLaw(Run(download, later))
  {
    hide StartMessage, StartDownload, Run;
    var env := Env(1638, 500, 0, Sent);
    FirstSend(1638);
    var message := StartMessage(App(NONE, 0, 0, 0, false, true, false, false, 0), false, env);
    var n := ThreeResends(message, env);
    evs := Repeat(Poll(env), n) + [Response];
    RunAppend(message, Repeat(Poll(env), n), [Response]);
    RunOne(Run(message, Repeat(Poll(env), n)), Response);
    later := MisfitBreaks(Run(message, evs), Env(1638, 500, 0, Again), 0);
  }

  lemma RunOne(a: App, ev: Event)
    ensures Run(a, [ev]) == Step(a, ev)
  {
    hide Step;
    assert [ev][1..] == [];
    assert Run(Step(a, ev), []) == Step(a, ev);
  }
}
