/** Failure counting and escalation: `dtls_coap_inc/next/clear_failures` of `dtls_client.c` and
    `coap_appl_client_retry_strategy`. */
module Escalation {

  datatype Strategy = NewMessage | ModemOff | DtlsHandshake | Restart

  function RetryStrategy(counter: nat, dtls: bool): (s: Strategy)
  {
    if dtls then
      if counter == 1 then NewMessage
      else if counter == 2 then ModemOff
      else if counter == 3 then DtlsHandshake
      else Restart
    else
      if counter == 1 then NewMessage
      else if counter == 2 then ModemOff
      else Restart
  }

  /** The two counters, and the values handled since the last success with the strategies chosen. */
  datatype Counters = Counters(current: nat, handled: nat, values: seq<nat>, chosen: seq<Strategy>)

  /** `counted` tells whether a failed request counts: only after the first success of the device. */
  datatype Event = Failure(counted: bool) | SearchFailed | LoopTurn(dtls: bool) | Success

  function IncFailures(c: Counters): Counters {
    if c.current == c.handled then c.(current := c.current + 1) else c
  }

  function NextFailures(c: Counters, dtls: bool): Counters {
    if c.current == c.handled then c
    else
      c.(handled := c.current, values := c.values + [c.current],
         chosen := c.chosen + [RetryStrategy(c.current, dtls)])
  }

  function Step(c: Counters, ev: Event): Counters {
    match ev
    case Failure(counted) => if counted then IncFailures(c) else c
    case SearchFailed => IncFailures(c)
    case LoopTurn(dtls) => NextFailures(c, dtls)
    case Success => Counters(0, 0, [], [])
  }

  function Run(c: Counters, evs: seq<Event>): Counters
    decreases |evs|
  {
    if evs == [] then c else Run(Step(c, evs[0]), evs[1..])
  }

  function UpTo(n: nat): seq<nat> { seq(n, i => i + 1) }

  /** At most one failure waits to be handled; the handled values are 1, 2, 3, ... without gap or repeat. */
  ghost predicate Counting(c: Counters) {
    && (c.current == c.handled || c.current == c.handled + 1)
    && c.values == UpTo(c.handled)
    && |c.chosen| == c.handled
  }

  /** The strategies are chosen for one protocol. */
  ghost predicate OneProtocol(evs: seq<Event>, dtls: bool) {
    forall ev :: ev in evs && ev.LoopTurn? ==> ev.dtls == dtls
  }

  ghost predicate Chosen(c: Counters, dtls: bool) {
    forall i :: 0 <= i < |c.chosen| ==> c.chosen[i] == RetryStrategy(i + 1, dtls)
  }

  lemma StepCounts(c: Counters, ev: Event, dtls: bool)
    requires Counting(c) && Chosen(c, dtls) && (ev.LoopTurn? ==> ev.dtls == dtls)
    ensures Counting(Step(c, ev)) && Chosen(Step(c, ev), dtls)
  {
    if ev.LoopTurn? && c.current != c.handled {
      assert UpTo(c.current) == UpTo(c.handled) + [c.current];
    }
  }

  /** Over every run: current minus handled failures is 0 or 1, and the values handled since the last success
      are 1, 2, 3, ... The first is answered by a new message, the second by switching the modem off, with
      DTLS the third by a handshake, and all later ones, no earlier one, by a restart. */
  lemma {:induction false} EscalationInOrder(c: Counters, evs: seq<Event>, dtls: bool)
    requires Counting(c) && Chosen(c, dtls) && OneProtocol(evs, dtls)
    ensures
      var r := Run(c, evs);
      && 0 <= r.current - r.handled <= 1
      && r.values == UpTo(r.handled)
      && |r.chosen| == r.handled
      && (r.handled >= 1 ==> r.chosen[0] == NewMessage)
      && (r.handled >= 2 ==> r.chosen[1] == ModemOff)
      && (dtls && r.handled >= 3 ==> r.chosen[2] == DtlsHandshake)
      && (forall i :: 0 <= i < |r.chosen| ==> (r.chosen[i] == Restart <==> i + 1 >= if dtls then 4 else 3))
    decreases |evs|
  {
    if evs != [] {
      assert evs[0] in evs && forall ev :: ev in evs[1..] ==> ev in evs;
      StepCounts(c, evs[0], dtls);
      EscalationInOrder(Step(c, evs[0]), evs[1..], dtls);
    }
  }

  // ----- which failures count

  /** A counted failure came after the last turn of the main loop and the last success. */
  predicate Waiting(evs: seq<Event>) {
    if evs == [] then false
    else
      match evs[|evs| - 1]
      case Failure(counted) => counted || Waiting(evs[..|evs| - 1])
      case SearchFailed => true
      case LoopTurn(_) => false
      case Success => false
  }

  /** The turns of the main loop since the last success that found a failure waiting. */
  function BusyTurns(evs: seq<Event>): nat {
    if evs == [] then 0
    else
      var before := evs[..|evs| - 1];
      match evs[|evs| - 1]
      case Success => 0
      case LoopTurn(_) => BusyTurns(before) + if Waiting(before) then 1 else 0
      case _ => BusyTurns(before)
  }

  lemma {:induction false} RunLast(c: Counters, evs: seq<Event>)
    requires evs != []
    ensures Run(c, evs) == Step(Run(c, evs[..|evs| - 1]), evs[|evs| - 1])
    decreases |evs|
  {
    hide Step;
    if |evs| > 1 {
      RunLast(Step(c, evs[0]), evs[1..]);
      assert evs[..|evs| - 1][1..] == evs[1..][..|evs| - 2] && evs[1..][|evs| - 2] == evs[|evs| - 1];
    } else {
      assert evs[..0] == [] && evs[1..] == [];
    }
  }

  /** Every counted failure, alone or in a row before the same turn, is handled by that turn, once; uncounted
      ones are not. */
  lemma {:induction false} FailuresHandled(evs: seq<Event>)
    ensures
      var r := Run(Counters(0, 0, [], []), evs);
      r.handled == BusyTurns(evs) && r.current == r.handled + if Waiting(evs) then 1 else 0
    decreases |evs|
  {
    if evs != [] {
      hide Run;
      FailuresHandled(evs[..|evs| - 1]);
      RunLast(Counters(0, 0, [], []), evs);
    }
  }

  /** The static counters themselves; what was handled is recorded for the proof. */
  class FailureCounter {
    var current: nat
    var handled: nat
    ghost var values: seq<nat>
    ghost var chosen: seq<Strategy>

    ghost function View(): Counters
      reads this
    {
      Counters(current, handled, values, chosen)
    }

    constructor ()
      ensures View() == Counters(0, 0, [], []) && Counting(View())
    {
      current, handled, values, chosen := 0, 0, [], [];
    }

    method IncFailures() returns (failures: nat)
      modifies this`current
      ensures View() == Step(old(View()), SearchFailed) && failures == current
      ensures old(Counting(View())) ==> Counting(View()) && failures == handled + 1
    {
      if current == handled {
        current := current + 1;
      }
      failures := current;
    }

    /** The failure to handle now, or -1. */
    method NextFailures(ghost dtls: bool) returns (failure: int)
      modifies this
      ensures View() == Step(old(View()), LoopTurn(dtls))
      ensures failure == if old(current == handled) then -1 else current
      ensures old(Counting(View())) ==>
        Counting(View()) && failure == if old(current == handled) then -1 else old(handled) + 1
    {
      if current == handled {
        return -1;
      }
      assert UpTo(handled + 1) == UpTo(handled) + [handled + 1];
      handled := current;
      failure := current;
      values := values + [current];
      chosen := chosen + [RetryStrategy(current, dtls)];
    }

    method ClearFailures()
      modifies this
      ensures View() == Step(old(View()), Success) && Counting(View())
    {
      current, handled, values, chosen := 0, 0, [], [];
    }
  }
}
