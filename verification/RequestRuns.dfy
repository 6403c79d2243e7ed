/** The main results about a request: it ends after a bounded number of poll timeouts, is resent at most
    three times, and its timeout is the first one doubled per retransmission; with the exact condition
    under which that doubling stays in 16 bits. */
module RequestRuns {
  import opened Bytes
  import opened Flash
  import opened RequestSteps

  ghost predicate Running(s: RequestState) { s in {SEND, RECEIVE, WAIT_RESPONSE} }

  /** The timeout is the value of the first transmission doubled for every retransmission. */
  ghost predicate TimeoutLaw(a: App) { a.timeout == a.base * Pow2(a.retransmission) }

  /** `bound` limits the timeout of the first transmission. */
  ghost predicate Lawful(a: App, bound: nat) {
    Running(a.state) ==> a.retransmission <= COAP_MAX_RETRANSMISSION && a.base <= bound && TimeoutLaw(a)
  }

  lemma Powers()
    ensures Pow2(0) == 1 && Pow2(1) == 2 && Pow2(2) == 4 && Pow2(3) == 8
  {
  }

  lemma ScaledBound(timeout: nat, scale: nat)
    requires scale <= 500
    ensures Scaled(timeout, scale) <= 5 * timeout
  {
    MulMonotone(timeout, scale, 500);
  }

  lemma SendLawful(a: App, env: Env, bound: nat)
    requires a.retransmission <= COAP_MAX_RETRANSMISSION && a.base <= bound && TimeoutLaw(a)
    requires env.scale <= 500 && 5 * env.coapTimeout <= bound <= 8191
    ensures Lawful(SendToPeer(a, env), bound)
  {
    Powers();
    ScaledBound(env.coapTimeout, env.scale);
  }

  lemma StepLawful(a: App, ev: Event, bound: nat)
    requires Lawful(a, bound) && bound <= 8191
    requires ev.Poll? ==> ev.env.scale <= 500 && 5 * ev.env.coapTimeout <= bound
    ensures Lawful(Step(a, ev), bound)
  {
    if ev.Poll? {
      Powers();
      ScaledBound(ev.env.coapTimeout, ev.env.scale);
      if a.state == RECEIVE && a.retransmission < COAP_MAX_RETRANSMISSION {
        ResendLawful(a.(loops := a.loops + 1), ev.env, bound);
      }
    }
  }

  lemma ResendLawful(a: App, env: Env, bound: nat)
    requires a.retransmission < COAP_MAX_RETRANSMISSION && a.base <= bound && TimeoutLaw(a) && bound <= 8191
    requires env.scale <= 500 && 5 * env.coapTimeout <= bound
    ensures Lawful(Resend(a, env), bound)
  {
    hide SendToPeer, Lawful, Scaled;
    Powers();
    ScaledBound(env.coapTimeout, env.scale);
    var b := if a.retransmission == 0 then AdjustTimeout(a.(loops := 0), env, false) else a.(loops := 0);
    var c := SetState(b.(timeout := b.timeout * 2 % UINT16, retransmission := b.retransmission + 1), SEND);
    assert TimeoutLaw(b) && b.timeout * 2 < UINT16;
    assert TimeoutLaw(c);
    SendLawful(c, env, bound);
  }

  lemma {:induction false} RunLawful(a: App, evs: seq<Event>, bound: nat, coapTimeout: nat, extra: nat)
    requires Lawful(a, bound) && 5 * coapTimeout <= bound <= 8191 && Environment(evs, coapTimeout, extra)
    ensures Lawful(Run(a, evs), bound)
    decreases |evs|
  {
    if evs != [] {
      assert evs[0] in evs && forall ev :: ev in evs[1..] ==> ev in evs;
      StepLawful(a, evs[0], bound);
      RunLawful(Step(a, evs[0]), evs[1..], bound, coapTimeout, extra);
    }
  }

  // ----- termination

  /** `bound` doubled per retransmission limits the timeout. */
  ghost predicate Capped(a: App, bound: nat) {
    Running(a.state) ==> a.retransmission <= COAP_MAX_RETRANSMISSION && a.timeout <= bound * Pow2(a.retransmission)
  }

  /** What keeps the timeout capped over a run: the law, or just its 16 bits. */
  ghost predicate Tame(a: App, bound: nat, coapTimeout: nat) {
    if bound >= UINT16 then a.timeout < UINT16 && (Running(a.state) ==> a.retransmission <= COAP_MAX_RETRANSMISSION)
    else Lawful(a, bound) && 5 * coapTimeout <= bound <= 8191
  }

  lemma TameIsCapped(a: App, bound: nat, coapTimeout: nat)
    requires Tame(a, bound, coapTimeout)
    ensures Capped(a, bound)
  {
    MulMonotone(bound, 1, Pow2(a.retransmission));
    if bound < UINT16 && Running(a.state) { MulMonotone(Pow2(a.retransmission), a.base, bound); }
  }

  lemma StepTame(a: App, ev: Event, bound: nat, coapTimeout: nat)
    requires Tame(a, bound, coapTimeout)
    requires ev.Poll? ==> ev.env.scale <= 500 && ev.env.coapTimeout == coapTimeout
    ensures Tame(Step(a, ev), bound, coapTimeout)
  {
    hide Scaled, Pow2;
    if bound < UINT16 {
      StepLawful(a, ev, bound);
    } else if ev.Poll? && a.state == RECEIVE {
      ResendFits(a.(loops := a.loops + 1), ev.env);
    }
  }

  lemma ResendFits(a: App, env: Env)
    requires a.timeout < UINT16 && a.state == RECEIVE
    ensures Resend(a, env).timeout < UINT16
  {
    hide Scaled;
  }

  /** Most poll timeouts spent in RECEIVE at retransmission `r`. */
  function ReceiveCap(bound: nat, extra: nat, r: nat): (n: nat)
    ensures n > 0
  {
    bound * Pow2(r) + extra + 1
  }

  /** Most poll timeouts after transmission `r`: later transmissions, and the wait for a separate response. */
  function Rest(bound: nat, extra: nat, r: nat): nat
    decreases COAP_MAX_RETRANSMISSION - r
  {
    if r >= COAP_MAX_RETRANSMISSION then 61 else 61 + ReceiveCap(bound, extra, r + 1) + Rest(bound, extra, r + 1)
  }

  /** Poll timeouts a request can still take. */
  function PollsLeft(a: App, bound: nat, extra: nat): int {
    match a.state
    case SEND =>
      Max(1, 61 - a.loops) + ReceiveCap(bound, extra, a.retransmission) + Rest(bound, extra, a.retransmission)
    case RECEIVE => Max(1, ReceiveCap(bound, extra, a.retransmission) - a.loops) + Rest(bound, extra, a.retransmission)
    case WAIT_RESPONSE => Max(1, 61 - a.loops)
    case _ => 0
  }

  lemma ResendShrinks(a: App, env: Env, bound: nat, extra: nat)
    requires a.state == RECEIVE && a.retransmission < COAP_MAX_RETRANSMISSION
    ensures PollsLeft(Resend(a, env), bound, extra) < PollsLeft(a, bound, extra)
  {
    hide ReceiveCap, SendToPeer;
    ResendOutcome(a, env);
    assert Rest(bound, extra, a.retransmission)
        == 61 + ReceiveCap(bound, extra, a.retransmission + 1) + Rest(bound, extra, a.retransmission + 1);
  }

  lemma ResendOutcome(a: App, env: Env)
    requires a.state == RECEIVE
    ensures
      var r := Resend(a, env);
      r.state in {SEND, RECEIVE, WAIT_SUSPEND} && r.loops == 0 && r.retransmission == a.retransmission + 1
  {
    hide SendToPeer, Scaled;
    var b := if a.retransmission == 0 then AdjustTimeout(a.(loops := 0), env, false) else a.(loops := 0);
    SendOutcome(SetState(b.(timeout := b.timeout * 2 % UINT16, retransmission := b.retransmission + 1), SEND), env);
  }

  lemma SendOutcome(a: App, env: Env)
    requires a.state == SEND
    ensures
      var r := SendToPeer(a, env);
      r.state in {SEND, RECEIVE, WAIT_SUSPEND} && r.loops == a.loops && r.retransmission == a.retransmission
  {
    hide Scaled;
  }

  lemma WaitShrinks(a: App, env: Env, bound: nat, extra: nat)
    requires a.state == RECEIVE && Capped(a, bound) && env.extra <= extra
    ensures PollsLeft(PollTimeout(a, env), bound, extra) < PollsLeft(a, bound, extra)
  {
    hide Resend, Pow2, Rest;
    if a.retransmission < COAP_MAX_RETRANSMISSION {
      ResendShrinks(a.(loops := a.loops + 1), env, bound, extra);
    }
  }

  /** Every poll timeout of a running request makes it come closer to its end; nothing moves it away. */
  lemma StepShrinks(a: App, ev: Event, bound: nat, extra: nat)
    requires Capped(a, bound) && (ev.Poll? ==> ev.env.extra <= extra)
    ensures PollsLeft(Step(a, ev), bound, extra) <= PollsLeft(a, bound, extra)
    ensures ev.Poll? && Running(a.state) ==> PollsLeft(Step(a, ev), bound, extra) < PollsLeft(a, bound, extra)
    ensures Running(Step(a, ev).state) ==> Running(a.state)
  {
    hide Resend, ReceiveCap, Scaled;
    if a.state == RECEIVE && ev.Poll? {
      WaitShrinks(a, ev.env, bound, extra);
    }
  }

  lemma {:induction false} RunShrinks(a: App, evs: seq<Event>, bound: nat, coapTimeout: nat, extra: nat)
    requires Tame(a, bound, coapTimeout) && Environment(evs, coapTimeout, extra)
    ensures Tame(Run(a, evs), bound, coapTimeout)
    ensures Running(Run(a, evs).state) ==>
      Running(a.state) && PollsLeft(Run(a, evs), bound, extra) + Polls(evs) <= PollsLeft(a, bound, extra)
    decreases |evs|
  {
    hide Tame, Capped, Step, PollsLeft;
    if evs != [] {
      assert evs[0] in evs && forall ev :: ev in evs[1..] ==> ev in evs;
      StepTame(a, evs[0], bound, coapTimeout);
      TameIsCapped(a, bound, coapTimeout);
      StepShrinks(a, evs[0], bound, extra);
      RunShrinks(Step(a, evs[0]), evs[1..], bound, coapTimeout, extra);
    }
  }

  lemma RestSum(bound: nat, extra: nat)
    ensures 61 + ReceiveCap(bound, extra, 0) + Rest(bound, extra, 0) == 15 * bound + 4 * extra + 309
  {
    Powers();
    assert Rest(bound, extra, 2) == 61 + ReceiveCap(bound, extra, 3) + 61;
    assert Rest(bound, extra, 1) == 61 + ReceiveCap(bound, extra, 2) + Rest(bound, extra, 2);
  }

  /** A started request ends after finitely many poll timeouts, whatever else happens in between and
      whatever the configuration, and is resent at most three times: 15 * 2^16 is a bound for any
      16-bit timeout. */
  lemma RequestTerminates(a: App, evs: seq<Event>, coapTimeout: nat, extra: nat)
    requires a.retransmission == 0 && a.loops == 0 && a.timeout < UINT16 && Environment(evs, coapTimeout, extra)
    ensures Polls(evs) >= 15 * UINT16 + 4 * extra + 309 ==> !Running(Run(a, evs).state)
    ensures Running(Run(a, evs).state) ==> Run(a, evs).retransmission <= COAP_MAX_RETRANSMISSION
  {
    RunShrinks(a, evs, UINT16, coapTimeout, extra);
    RestSum(UINT16, extra);
    assert PollsLeft(a, UINT16, extra) <= 15 * UINT16 + 4 * extra + 309 by { hide ReceiveCap, Rest; }
  }

  /** With a lawful first timeout of at most `bound` seconds the bound is 15 * bound + 4 * extra + 309, and
      the timeout is the first one doubled per retransmission, in 16 bits. */
  lemma RequestTimeouts(a: App, evs: seq<Event>, bound: nat, coapTimeout: nat, extra: nat)
    requires a.retransmission == 0 && a.loops == 0 && a.base == a.timeout <= bound
    requires 5 * coapTimeout <= bound <= 8191 && Environment(evs, coapTimeout, extra)
    ensures Polls(evs) >= 15 * bound + 4 * extra + 309 ==> !Running(Run(a, evs).state)
    ensures Running(Run(a, evs).state) ==> TimeoutLaw(Run(a, evs)) && Run(a, evs).timeout < UINT16
  {
    Powers();
    RunShrinks(a, evs, bound, coapTimeout, extra);
    RestSum(bound, extra);
    var r := Run(a, evs);
    if Running(r.state) {
      MulMonotone(Pow2(r.retransmission), r.base, 8191);
    }
  }

  /** Both ways to start a request lead there: a message always, a download request when its first send
      is accepted or the old timeout is small enough. */
  lemma StartLawful(a: App, noResponse: bool, env: Env, bound: nat)
    requires 100 <= env.scale <= 500 && 5 * env.coapTimeout <= bound <= 8191
    ensures Running(StartMessage(a, noResponse, env).state) ==>
      var s := StartMessage(a, noResponse, env); s.retransmission == 0 && s.loops == 0 && s.base == s.timeout <= bound
    ensures Running(StartDownload(a, env).state) && (env.send.Sent? || a.timeout <= bound) ==>
      var s := StartDownload(a, env); s.retransmission == 0 && s.loops == 0 && s.base == s.timeout <= bound
  {
    ScaledBound(env.coapTimeout, env.scale);
  }

  // ----- exactly when the doubling fits

  function Repeat(ev: Event, n: nat): seq<Event> { seq(n, _ => ev) }

  /** Connected and waiting: polls below the limit only count. */
  lemma {:induction false} WaitPolls(a: App, env: Env, n: nat)
    requires a.state == RECEIVE && a.connected && a.loops + n <= a.timeout
    ensures Run(a, Repeat(Poll(env), n)) == a.(loops := a.loops + n)
    decreases n
  {
    if n > 0 {
      assert Repeat(Poll(env), n)[1..] == Repeat(Poll(env), n - 1);
      WaitPolls(a.(loops := a.loops + 1), env, n - 1);
    }
  }

  lemma {:induction false} RunAppend(a: App, xs: seq<Event>, ys: seq<Event>)
    ensures Run(a, xs + ys) == Run(Run(a, xs), ys)
    decreases |xs|
  {
    if xs == [] {
      assert xs + ys == ys;
    } else {
      assert (xs + ys)[1..] == xs[1..] + ys;
      RunAppend(Step(a, xs[0]), xs[1..], ys);
    }
  }

  /** The timeout a transmission is resent with, before it is doubled: the first resend may adjust it. */
  function Adjusted(a: App, env: Env): App { if a.retransmission == 0 then AdjustTimeout(a, env, false) else a }

  /** The poll timeout behind the wait of a connected request. */
  lemma ResendStep(a: App, env: Env)
    requires a.state == RECEIVE && a.connected && !a.noResponse && a.loops == a.timeout && env.send.Sent?
    requires a.retransmission < COAP_MAX_RETRANSMISSION
    ensures Step(a, Poll(env)) == Adjusted(a, env).(
      loops := 0, timeout := Adjusted(a, env).timeout * 2 % UINT16, retransmission := a.retransmission + 1,
      connectedToSend := false, lteSend := false)
  {
    hide Scaled, Run;
    var b := a.(loops := a.loops + 1);
    assert Step(a, Poll(env)) == Resend(b, env);
    var c := Adjusted(b.(loops := 0), env);
    ResendSent(c.(timeout := c.timeout * 2 % UINT16, retransmission := c.retransmission + 1), env);
  }

  lemma ResendSent(a: App, env: Env)
    requires a.state == RECEIVE && a.connected && !a.noResponse && env.send.Sent? && a.retransmission > 0
    ensures SendToPeer(SetState(a, SEND), env) == a.(connectedToSend := false, lteSend := false)
  {
    hide Scaled;
  }

  /** Connected without any answer: the request is resent with the doubled timeout. */
  lemma NextTransmission(a: App, env: Env)
    requires a.state == RECEIVE && a.connected && !a.noResponse && a.loops == 0 && env.send.Sent?
    requires a.retransmission < COAP_MAX_RETRANSMISSION
    ensures Run(a, Repeat(Poll(env), a.timeout + 1)) == Adjusted(a, env).(
      timeout := Adjusted(a, env).timeout * 2 % UINT16, retransmission := a.retransmission + 1,
      connectedToSend := false, lteSend := false)
  {
    hide Scaled, Step;
    WaitPolls(a, env, a.timeout);
    RunAppend(a, Repeat(Poll(env), a.timeout), [Poll(env)]);
    assert Repeat(Poll(env), a.timeout + 1) == Repeat(Poll(env), a.timeout) + [Poll(env)];
    var b := a.(loops := a.timeout);
    ResendStep(b, env);
    assert [Poll(env)][1..] == [];
    assert Run(b, [Poll(env)]) == Run(Step(b, Poll(env)), []);
  }

  lemma RepeatSum(a: App, ev: Event, m: nat, n: nat)
    ensures Run(a, Repeat(ev, m + n)) == Run(Run(a, Repeat(ev, m)), Repeat(ev, n))
  {
    assert Repeat(ev, m + n) == Repeat(ev, m) + Repeat(ev, n);
    RunAppend(a, Repeat(ev, m), Repeat(ev, n));
  }

  /** Connected and without an answer the last transmission fails. */
  lemma LastPoll(a: App, env: Env)
    requires a.state == RECEIVE && a.connected && a.retransmission >= COAP_MAX_RETRANSMISSION && a.loops == a.timeout
    ensures Run(a, Repeat(Poll(env), 1)).state == WAIT_SUSPEND
  {
    assert Repeat(Poll(env), 1) == [Poll(env)] && [Poll(env)][1..] == [];
    assert Run(a, [Poll(env)]) == Step(a, Poll(env));
  }

  /** The state after `n` poll timeouts. */
  function Polled(a: App, env: Env, n: nat): App { Run(a, Repeat(Poll(env), n)) }

  /** Exponential back-off: without an answer a request with first timeout `t` is resent by the poll timeouts
      t + 1, 3t + 2 and 7t + 3, and fails with poll timeout 15t + 4, not before. */
  lemma UnansweredBacksOff(a: App, env: Env)
    requires a.state == RECEIVE && a.connected && !a.noResponse && !a.connectedToSend && !a.lteSend
    requires a.loops == 0 && a.retransmission == 0 && 8 * a.timeout < UINT16
    requires env.send.Sent? && Scaled(env.coapTimeout, env.scale) % UINT16 <= a.timeout
    ensures Polled(a, env, a.timeout) == a.(loops := a.timeout)
    ensures Polled(a, env, a.timeout + 1) == a.(timeout := 2 * a.timeout, retransmission := 1)
    ensures Polled(a, env, 3 * a.timeout + 2) == a.(timeout := 4 * a.timeout, retransmission := 2)
    ensures Polled(a, env, 7 * a.timeout + 3) == a.(timeout := 8 * a.timeout, retransmission := 3)
    ensures Polled(a, env, 15 * a.timeout + 3)
         == a.(timeout := 8 * a.timeout, retransmission := 3, loops := 8 * a.timeout)
    ensures Polled(a, env, 15 * a.timeout + 4).state == WAIT_SUSPEND
  {
    hide Run, Scaled, Repeat;
    var t, p := a.timeout, Poll(env);
    WaitPolls(a, env, t);
    NextTransmission(a, env);
    var b := a.(timeout := 2 * t, retransmission := 1);
    NextTransmission(b, env);
    RepeatSum(a, p, t + 1, 2 * t + 1);
    var c := a.(timeout := 4 * t, retransmission := 2);
    NextTransmission(c, env);
    RepeatSum(a, p, 3 * t + 2, 4 * t + 1);
    var d := a.(timeout := 8 * t, retransmission := 3);
    WaitPolls(d, env, 8 * t);
    RepeatSum(a, p, 7 * t + 3, 8 * t);
    LastPoll(d.(loops := 8 * t), env);
    RepeatSum(a, p, 15 * t + 3, 1);
  }

  /** A send that is never connected, and a wait for a separate response, fail with the 61st poll timeout,
      not before. */
  lemma {:induction false} GivesUpAfter60(a: App, env: Env, n: nat)
    requires a.state == WAIT_RESPONSE || (a.state == SEND && !a.connectedToSend)
    requires a.loops + n <= 61 && a.loops <= 60
    ensures Run(a, Repeat(Poll(env), n)) == (if a.loops + n <= 60 then a else Done(a)).(loops := a.loops + n)
    decreases n
  {
    if n > 0 {
      var b := Step(a, Poll(env));
      assert Repeat(Poll(env), n)[1..] == Repeat(Poll(env), n - 1);
      if n > 1 {
        GivesUpAfter60(b, env, n - 1);
      } else {
        assert Repeat(Poll(env), 0) == [];
      }
    }
  }

  /** All runs from the start of an application message obey the law. */
  ghost predicate AlwaysLawful(coapTimeout: nat, extra: nat) {
    forall a, noResponse, env: Env, evs |
      env.coapTimeout == coapTimeout && 100 <= env.scale <= 500 && Environment(evs, coapTimeout, extra) ::
      var r := Run(StartMessage(a, noResponse, env), evs);
      Running(r.state) ==> TimeoutLaw(r)
  }

  /** The first send of a connected modem, with the largest time scale. */
  lemma FirstSend(coapTimeout: nat)
    ensures StartMessage(App(NONE, 0, 0, 0, false, true, false, false, 0), false, Env(coapTimeout, 500, 0, Sent))
         == App(RECEIVE, 0, 5 * coapTimeout % UINT16, 0, false, true, false, false, 5 * coapTimeout)
  {
  }

  /** Three retransmissions without an answer, with the cut to 16 bits. */
  lemma ThreeResends(a: App, env: Env) returns (n: nat)
    requires a.state == RECEIVE && a.connected && !a.noResponse && env.send.Sent?
    requires a.loops == 0 && a.retransmission == 0
    ensures Run(a, Repeat(Poll(env), n)) == Adjusted(a, env).(
      timeout := Adjusted(a, env).timeout * 2 % UINT16 * 2 % UINT16 * 2 % UINT16, retransmission := 3,
      connectedToSend := false, lteSend := false)
  {
    hide Run, Scaled, Repeat;
    NextTransmission(a, env);
    var b := Run(a, Repeat(Poll(env), a.timeout + 1));
    NextTransmission(b, env);
    var c := b.(timeout := b.timeout * 2 % UINT16, retransmission := 2);
    NextTransmission(c, env);
    RepeatSum(a, Poll(env), a.timeout + 1, b.timeout + 1);
    RepeatSum(a, Poll(env), a.timeout + 1 + (b.timeout + 1), c.timeout + 1);
    n := a.timeout + 1 + (b.timeout + 1) + (c.timeout + 1);
  }

  /** A time scale with which the first resend is not cut and starts from more than 8191 seconds. */
  lemma LongScale(a: App, coapTimeout: nat) returns (env: Env)
    requires a.retransmission == 0 && a.base == a.timeout < UINT16 && coapTimeout < UINT16
    requires coapTimeout > 1638 || a.timeout > 8191
    ensures env.coapTimeout == coapTimeout && 100 <= env.scale <= 500 && env.extra == 0 && env.send.Sent?
    ensures 8191 < Adjusted(a, env).base == Adjusted(a, env).timeout < UINT16
    ensures Adjusted(a, env).state == a.state
  {
    env := Env(coapTimeout, if 5 * coapTimeout < UINT16 then 500 else 100, 0, Sent);
  }

  /** A connected request that waits for its response: with a larger `coap_timeout`, or a longer timeout
      already set, the third retransmission is cut. */
  lemma WaitingBreaks(a: App, coapTimeout: nat, extra: nat) returns (evs: seq<Event>)
    requires a.state == RECEIVE && a.connected && !a.noResponse && a.loops == 0 && a.retransmission == 0
    requires a.base == a.timeout < UINT16 && coapTimeout < UINT16
    requires coapTimeout > 1638 || a.timeout > 8191
    ensures Environment(evs, coapTimeout, extra)
    ensures Running(Run(a, evs).state) && !TimeoutLaw(Run(a, evs))
  {
    hide Run, Adjusted;
    Powers();
    var env := LongScale(a, coapTimeout);
    var n := ThreeResends(a, env);
    evs := Repeat(Poll(env), n);
  }

  /** With a larger `coap_timeout` the third retransmission, or already the first scaled value, is cut. */
  lemma OverflowRun(coapTimeout: nat, extra: nat) returns (a: App, env: Env, evs: seq<Event>)
    requires 1638 < coapTimeout < UINT16
    ensures env.coapTimeout == coapTimeout && 100 <= env.scale <= 500 && Environment(evs, coapTimeout, extra)
    ensures Running(Run(StartMessage(a, false, env), evs).state)
    ensures !TimeoutLaw(Run(StartMessage(a, false, env), evs))
  {
    hide StartMessage, Step;
    Powers();
    a := App(NONE, 0, 0, 0, false, true, false, false, 0);
    env := Env(coapTimeout, 500, 0, Sent);
    FirstSend(coapTimeout);
    if 5 * coapTimeout >= UINT16 {
      evs := [];
    } else {
      evs := WaitingBreaks(StartMessage(a, false, env), coapTimeout, extra);
    }
  }

  /** The timeout law holds in all runs exactly when `coap_timeout` is at most 1638 seconds. */
  lemma LawfulIff(coapTimeout: nat, extra: nat)
    requires coapTimeout < UINT16
    ensures AlwaysLawful(coapTimeout, extra) <==> coapTimeout <= 1638
  {
    if coapTimeout <= 1638 {
      forall a, noResponse, env: Env, evs |
        env.coapTimeout == coapTimeout && 100 <= env.scale <= 500 && Environment(evs, coapTimeout, extra)
        ensures Running(Run(StartMessage(a, noResponse, env), evs).state) ==>
          TimeoutLaw(Run(StartMessage(a, noResponse, env), evs))
      {
        var s := StartMessage(a, noResponse, env);
        StartLawful(a, noResponse, env, 8191);
        Powers();
        RunLawful(s, evs, 8191, coapTimeout, extra);
      }
    } else {
      var a, env, evs := OverflowRun(coapTimeout, extra);
    }
  }
}
