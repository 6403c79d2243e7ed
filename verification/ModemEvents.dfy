/** The modem state derivation of `modem.c`: ready and connected are derived from registration, PDN and
    RRC, and every edge submits one callback work. */
module ModemEvents {

  datatype NetState = INIT | OFF | ON

  datatype Work = ReadyOn | ReadyOff | ConnectedOn | ConnectedOff

  /** The inputs in `network_info`, the MODEM_READY and MODEM_CONNECTED bits, and the works submitted since
      `modem_init`. `withPdn` is CONFIG_PDN. */
  datatype Modem = Modem(
    withPdn: bool, registered: NetState, pdn: NetState, rrc: NetState,
    ready: bool, connected: bool, works: seq<Work>)

  /** `modem_init`: it clears the inputs and MODEM_READY, and leaves MODEM_CONNECTED as it was. */
  function Init(withPdn: bool, connectedBit: bool): Modem {
    Modem(withPdn, INIT, INIT, INIT, false, connectedBit, [])
  }

  predicate ReadyNow(m: Modem) { m.registered == ON && (m.withPdn ==> m.pdn == ON) }

  predicate ConnectedNow(m: Modem) { ReadyNow(m) && m.rrc == ON }

  function Submit(m: Modem, on: bool, work: Work): (m': Modem) {
    if on then m.(works := m.works + [work]) else m
  }

  /** `lte_connection_status`. */
  function Status(m: Modem): (m': Modem)
    ensures m'.ready == ReadyNow(m) && m'.connected == ConnectedNow(m)
    ensures m' == m.(ready := m'.ready, connected := m'.connected, works := m'.works)
  {
    var a := Submit(m, !ConnectedNow(m) && m.connected, ConnectedOff).(connected := m.connected && ConnectedNow(m));
    var b := Submit(a, a.ready != ReadyNow(m), if ReadyNow(m) then ReadyOn else ReadyOff).(ready := ReadyNow(m));
    Submit(b, ConnectedNow(m) && !b.connected, ConnectedOn).(connected := b.connected || ConnectedNow(m))
  }

  function OnOff(on: bool): NetState { if on then ON else OFF }

  function SetRegistered(m: Modem, on: bool): Modem {
    if m.registered == OnOff(on) then m else Status(m.(registered := OnOff(on)))
  }

  function SetRrc(m: Modem, on: bool): Modem {
    if m.rrc == OnOff(on) then m else Status(m.(rrc := OnOff(on)))
  }

  function SetPdn(m: Modem, on: bool): Modem {
    if m.pdn == OnOff(on) then m else Status(m.(pdn := OnOff(on)))
  }

  /** Steps: the three setters, and `modem_read_network_info` without and with callbacks. */
  datatype Event =
    | Registration(on: bool)
    | Rrc(on: bool)
    | Pdn(on: bool)
    | Silent(registered: NetState, pdn: NetState, rrc: NetState)
    | Refresh(isRegistered: bool, pdn: NetState, rrc: NetState)

  function Step(m: Modem, ev: Event): Modem {
    match ev
    case Registration(on) => SetRegistered(m, on)
    case Rrc(on) => SetRrc(m, on)
    case Pdn(on) => SetPdn(m, on)
    case Silent(registered, pdn, rrc) => m.(registered := registered, pdn := pdn, rrc := rrc)
    case Refresh(isRegistered, pdn, rrc) =>
      SetRrc(SetRegistered(m.(pdn := pdn, registered := INIT, rrc := INIT), isRegistered), rrc == ON)
  }

  function Run(m: Modem, evs: seq<Event>): Modem
    decreases |evs|
  {
    if evs == [] then m else Run(Step(m, evs[0]), evs[1..])
  }

  // ----- the order of the submitted works

  datatype Phase = Down | Up | Online | Broken

  function Advance(p: Phase, w: Work): Phase {
    match (p, w)
    case (Down, ReadyOn) => Up
    case (Up, ConnectedOn) => Online
    case (Online, ConnectedOff) => Up
    case (Up, ReadyOff) => Down
    case _ => Broken
  }

  function PhaseAfter(p: Phase, works: seq<Work>): Phase
    decreases |works|
  {
    if works == [] then p else PhaseAfter(Advance(p, works[0]), works[1..])
  }

  lemma {:induction false} PhaseSnoc(p: Phase, works: seq<Work>, w: Work)
    ensures PhaseAfter(p, works + [w]) == Advance(PhaseAfter(p, works), w)
    decreases |works|
  {
    if works == [] {
      assert ([w])[1..] == [];
    } else {
      assert (works + [w])[1..] == works[1..] + [w];
      PhaseSnoc(Advance(p, works[0]), works[1..], w);
    }
  }

  /** The phase the bits stand for. */
  function BitPhase(m: Modem): Phase {
    if m.connected then if m.ready then Online else Broken
    else if m.ready then Up else Down
  }

  ghost predicate Bracketed(m: Modem) {
    PhaseAfter(Down, m.works) == BitPhase(m) && (m.connected ==> m.ready)
  }

  lemma StatusBracketed(m: Modem)
    requires Bracketed(m)
    ensures Bracketed(Status(m))
  {
    var a := Submit(m, !ConnectedNow(m) && m.connected, ConnectedOff).(connected := m.connected && ConnectedNow(m));
    PhaseSnoc(Down, m.works, ConnectedOff);
    assert PhaseAfter(Down, a.works) == BitPhase(a);
    var w := if ReadyNow(m) then ReadyOn else ReadyOff;
    var b := Submit(a, a.ready != ReadyNow(m), w).(ready := ReadyNow(m));
    PhaseSnoc(Down, a.works, w);
    assert PhaseAfter(Down, b.works) == BitPhase(b);
    PhaseSnoc(Down, b.works, ConnectedOn);
  }

  lemma StepBracketed(m: Modem, ev: Event)
    requires Bracketed(m)
    ensures Bracketed(Step(m, ev))
  {
    hide Status, PhaseAfter;
    match ev {
      case Registration(on) => StatusBracketed(m.(registered := OnOff(on)));
      case Rrc(on) => StatusBracketed(m.(rrc := OnOff(on)));
      case Pdn(on) => StatusBracketed(m.(pdn := OnOff(on)));
      case Silent(_, _, _) =>
      case Refresh(isRegistered, pdn, rrc) =>
        var a := m.(pdn := pdn, registered := INIT, rrc := INIT);
        StatusBracketed(a.(registered := OnOff(isRegistered)));
        var b := SetRegistered(a, isRegistered);
        StatusBracketed(b.(rrc := OnOff(rrc == ON)));
    }
  }

  lemma {:induction false} RunBracketed(m: Modem, evs: seq<Event>)
    requires Bracketed(m)
    ensures Bracketed(Run(m, evs))
    decreases |evs|
  {
    if evs != [] {
      StepBracketed(m, evs[0]);
      RunBracketed(Step(m, evs[0]), evs[1..]);
    }
  }

  /** A refresh with callbacks leaves the bits in agreement with what it read. */
  lemma RefreshAgrees(m: Modem, isRegistered: bool, pdn: NetState, rrc: NetState)
    ensures
      var r := Step(m, Refresh(isRegistered, pdn, rrc));
      && r.ready == (isRegistered && (m.withPdn ==> pdn == ON))
      && r.connected == (r.ready && rrc == ON)
  {
  }

  /** With the bit still set the first evaluation submits a disconnect nobody is waiting for. */
  lemma SpuriousDisconnect(withPdn: bool, on: bool)
    ensures
      var r := Run(Init(withPdn, true), [Registration(on)]);
      |r.works| > 0 && r.works[0] == ConnectedOff && PhaseAfter(Down, r.works) == Broken
  {
    var m := Init(withPdn, true);
    var r := Step(m, Registration(on));
    assert [Registration(on)][1..] == [];
    assert Run(m, [Registration(on)]) == r;
    assert r.works[0] == ConnectedOff;
    StaysBroken(r.works[1..]);
  }

  lemma {:induction false} StaysBroken(works: seq<Work>)
    ensures PhaseAfter(Broken, works) == Broken
    decreases |works|
  {
    if works != [] { StaysBroken(works[1..]); }
  }

  ghost predicate AlwaysBracketed(withPdn: bool, connectedBit: bool) {
    forall evs :: Bracketed(Run(Init(withPdn, connectedBit), evs))
  }

  /** The works of all runs after `modem_init` are well bracketed exactly when it found the MODEM_CONNECTED
      bit clear; it does not clear the bit itself. */
  lemma BracketedIff(withPdn: bool, connectedBit: bool)
    ensures AlwaysBracketed(withPdn, connectedBit) <==> !connectedBit
  {
    var m := Init(withPdn, connectedBit);
    if connectedBit {
      hide Run, PhaseAfter, Status;
      SpuriousDisconnect(withPdn, true);
      assert !Bracketed(Run(m, [Registration(true)]));
    } else {
      forall evs
        ensures Bracketed(Run(m, evs))
      {
        RunBracketed(m, evs);
      }
    }
  }

  // ----- the inputs of a run

  /** The input an event reports; `Keep` keeps the one before. */
  datatype Input = Keep | Value(state: NetState)

  function Reported(on: bool): Input { Value(if on then ON else OFF) }

  function NewRegistration(ev: Event): Input {
    match ev
    case Registration(on) => Reported(on)
    case Silent(registered, _, _) => Value(registered)
    case Refresh(isRegistered, _, _) => Reported(isRegistered)
    case _ => Keep
  }

  function NewPdn(ev: Event): Input {
    match ev
    case Pdn(on) => Reported(on)
    case Silent(_, pdn, _) => Value(pdn)
    case Refresh(_, pdn, _) => Value(pdn)
    case _ => Keep
  }

  function NewRrc(ev: Event): Input {
    match ev
    case Rrc(on) => Reported(on)
    case Silent(_, _, rrc) => Value(rrc)
    case Refresh(_, _, rrc) => Reported(rrc == ON)
    case _ => Keep
  }

  function Taken(was: NetState, input: Input): NetState { if input.Value? then input.state else was }

  /** The last value of a run, looked for from its end. */
  function Latest(was: NetState, evs: seq<Event>, input: Event -> Input): NetState {
    if evs == [] then was
    else
      match input(evs[|evs| - 1])
      case Value(state) => state
      case Keep => Latest(was, evs[..|evs| - 1], input)
  }

  lemma {:induction false} LatestStep(was: NetState, evs: seq<Event>, input: Event -> Input)
    requires evs != []
    ensures Latest(was, evs, input)
         == Latest(Taken(was, input(evs[0])), evs[1..], input)
    decreases |evs|
  {
    if |evs| > 1 {
      var init := evs[..|evs| - 1];
      LatestStep(was, init, input);
      assert init[1..] == evs[1..][..|evs| - 2] && evs[1..][|evs| - 2] == evs[|evs| - 1];
    } else {
      assert evs[..0] == [] && evs[1..] == [];
    }
  }

  /** The bits say what the inputs say. */
  ghost predicate Agrees(m: Modem) { m.ready == ReadyNow(m) && m.connected == ConnectedNow(m) }

  lemma StepInputs(m: Modem, ev: Event)
    ensures
      var r := Step(m, ev);
      && r.withPdn == m.withPdn
      && r.registered == Taken(m.registered, NewRegistration(ev))
      && r.pdn == Taken(m.pdn, NewPdn(ev))
      && r.rrc == Taken(m.rrc, NewRrc(ev))
  {
    hide Status, ReadyNow, ConnectedNow;
  }

  lemma StepAgrees(m: Modem, ev: Event)
    requires Agrees(m) && !ev.Silent?
    ensures Agrees(Step(m, ev))
  {
    hide Status;
  }

  /** Every run leaves the last reported inputs. */
  lemma {:induction false} RunTakesInputs(m: Modem, evs: seq<Event>)
    ensures
      var r := Run(m, evs);
      && r.withPdn == m.withPdn
      && r.registered == Latest(m.registered, evs, NewRegistration)
      && r.pdn == Latest(m.pdn, evs, NewPdn)
      && r.rrc == Latest(m.rrc, evs, NewRrc)
    decreases |evs|
  {
    if evs != [] {
      hide Step, Latest, NewRegistration, NewPdn, NewRrc;
      StepInputs(m, evs[0]);
      LatestStep(m.registered, evs, NewRegistration);
      LatestStep(m.pdn, evs, NewPdn);
      LatestStep(m.rrc, evs, NewRrc);
      RunTakesInputs(Step(m, evs[0]), evs[1..]);
    }
  }

  /** In a run without silent reads the bits follow the inputs. */
  lemma {:induction false} RunAgrees(m: Modem, evs: seq<Event>)
    requires Agrees(m) && forall ev :: ev in evs ==> !ev.Silent?
    ensures Agrees(Run(m, evs))
    decreases |evs|
  {
    if evs != [] {
      hide Step, Agrees;
      assert evs[0] in evs && forall ev :: ev in evs[1..] ==> ev in evs;
      StepAgrees(m, evs[0]);
      RunAgrees(Step(m, evs[0]), evs[1..]);
    }
  }

  /** In a run without silent reads the modem is ready and connected exactly when the inputs reported last
      say so. */
  lemma RunFollowsInputs(m: Modem, evs: seq<Event>)
    requires Agrees(m) && forall ev :: ev in evs ==> !ev.Silent?
    ensures
      var ready := Latest(m.registered, evs, NewRegistration) == ON && (m.withPdn ==> Latest(m.pdn, evs, NewPdn) == ON);
      && Run(m, evs).ready == ready
      && Run(m, evs).connected == (ready && Latest(m.rrc, evs, NewRrc) == ON)
  {
    hide Run, Latest;
    RunTakesInputs(m, evs);
    RunAgrees(m, evs);
  }

  // ----- the same as a pattern

  function Connections(n: nat): seq<Work> {
    if n == 0 then [] else [ConnectedOn, ConnectedOff] + Connections(n - 1)
  }

  /** ready-on (connected-on connected-off)* ready-off, once per element of `ns`. */
  function Sessions(ns: seq<nat>): seq<Work> {
    if ns == [] then [] else [ReadyOn] + Connections(ns[0]) + [ReadyOff] + Sessions(ns[1..])
  }

  lemma {:induction false} OneSession(works: seq<Work>) returns (n: nat, rest: seq<Work>)
    requires PhaseAfter(Up, works) == Down
    ensures works == Connections(n) + [ReadyOff] + rest && PhaseAfter(Down, rest) == Down
    decreases |works|
  {
    StaysBroken(works[1..]);
    if works[0] == ReadyOff {
      n, rest := 0, works[1..];
    } else {
      assert works[0] == ConnectedOn;
      var tail := works[1..];
      StaysBroken(tail[1..]);
      assert tail != [] && tail[0] == ConnectedOff;
      var k, r := OneSession(tail[1..]);
      n, rest := k + 1, r;
      assert works == [ConnectedOn, ConnectedOff] + tail[1..];
    }
  }

  /** Whenever the modem is not ready, the works so far are complete sessions. */
  lemma {:induction false} CompleteSessions(works: seq<Work>) returns (ns: seq<nat>)
    requires PhaseAfter(Down, works) == Down
    ensures works == Sessions(ns)
    decreases |works|
  {
    if works == [] {
      ns := [];
    } else {
      StaysBroken(works[1..]);
      assert works[0] == ReadyOn;
      var n, rest := OneSession(works[1..]);
      var ms := CompleteSessions(rest);
      ns := [n] + ms;
      assert ns[1..] == ms;
      assert works == [ReadyOn] + works[1..];
    }
  }

  class ModemState {
    const withPdn: bool
    var registered: NetState
    var pdn: NetState
    var rrc: NetState
    var ready: bool
    var connected: bool
    var works: seq<Work>

    ghost function View(): Modem
      reads this
    {
      Modem(withPdn, registered, pdn, rrc, ready, connected, works)
    }

    constructor (withPdn: bool, connectedBit: bool)
      ensures View() == Init(withPdn, connectedBit)
    {
      this.withPdn := withPdn;
      registered, pdn, rrc, ready, connected, works := INIT, INIT, INIT, false, connectedBit, [];
    }

    method ConnectionStatus()
      modifies this`ready, this`connected, this`works
      ensures View() == Status(old(View()))
      ensures old(Bracketed(View())) ==> Bracketed(View())
    {
      if Bracketed(View()) { StatusBracketed(View()); }
      var isReady := registered == ON && (withPdn ==> pdn == ON);
      var isConnected := isReady && rrc == ON;
      if !isConnected && connected {
        connected := false;
        works := works + [ConnectedOff];
      }
      if ready != isReady {
        ready := isReady;
        works := works + [if isReady then ReadyOn else ReadyOff];
      }
      if isConnected && !connected {
        connected := true;
        works := works + [ConnectedOn];
      }
    }

    method RegistrationSet(on: bool)
      modifies this
      ensures View() == SetRegistered(old(View()), on)
    {
      if registered != OnOff(on) {
        registered := OnOff(on);
        ConnectionStatus();
      }
    }

    method ConnectionStatusSet(on: bool)
      modifies this
      ensures View() == SetRrc(old(View()), on)
    {
      if rrc != OnOff(on) {
        rrc := OnOff(on);
        ConnectionStatus();
      }
    }

    method PdnStatusSet(on: bool)
      modifies this
      ensures View() == SetPdn(old(View()), on)
    {
      if pdn != OnOff(on) {
        pdn := OnOff(on);
        ConnectionStatus();
      }
    }

    /** The tail of `modem_read_network_info`. */
    method NetworkInfoRead(isRegistered: bool, newPdn: NetState, newRrc: NetState, callbacks: bool)
      modifies this
      ensures View() == Step(old(View()),
        if callbacks then Refresh(isRegistered, newPdn, newRrc) else Silent(OnOff(isRegistered), newPdn, newRrc))
    {
      registered, pdn, rrc := OnOff(isRegistered), newPdn, newRrc;
      if callbacks {
        registered := INIT;
        rrc := INIT;
        RegistrationSet(isRegistered);
        ConnectionStatusSet(newRrc == ON);
      }
    }
  }

  // ----- modem_get_time_scale

  /** Coverage: the repetitions and the RSRP in dBm, if the modem knows them. */
  datatype Coverage = Unknown | Coverage(downlink: nat, uplink: nat, rsrp: int)

  function Max(a: nat, b: nat): nat { if a <= b then b else a }

  /** The number of repetitions, four for each uplink one, kept in 8 bits. */
  function Repetition(downlink: nat, uplink: nat): nat { Max(downlink, uplink * 4) % 256 }

  function RepetitionFactor(repetition: nat): nat {
    if repetition <= 8 then 100 else if repetition <= 16 then 150 else if repetition <= 32 then 200
    else if repetition <= 64 then 350 else if repetition <= 128 then 500 else 100
  }

  function SignalFactor(rsrp: int): nat {
    if rsrp > -110 then 100 else if rsrp > -120 then 150 else if rsrp > -125 then 200
    else if rsrp > -130 then 350 else 500
  }

  /** `modem_get_time_scale`. */
  function TimeScale(info: Coverage): (scale: nat)
    ensures scale in {100, 150, 200, 350, 500}
  {
    match info
    case Unknown => 100
    case Coverage(downlink, uplink, rsrp) =>
      Max(RepetitionFactor(Repetition(downlink, uplink)), SignalFactor(rsrp))
  }

  /** Coverage so bad that the scale is at least the one that goes with these limits. */
  predicate Poor(info: Coverage, repetitions: nat, rsrp: int) {
    info.Coverage? && (repetitions < Max(info.downlink, info.uplink * 4) % 256 <= 128 || info.rsrp <= rsrp)
  }

  /** Which scale belongs to which coverage: more than 8, 16, 32 and 64 repetitions up to 128, or an RSRP of at
      most -110, -120, -125 and -130 dBm, give at least 150, 200, 350 and 500. */
  lemma ScaleByCoverage(info: Coverage)
    ensures TimeScale(info) >= 100
    ensures TimeScale(info) >= 150 <==> Poor(info, 8, -110)
    ensures TimeScale(info) >= 200 <==> Poor(info, 16, -120)
    ensures TimeScale(info) >= 350 <==> Poor(info, 32, -125)
    ensures TimeScale(info) >= 500 <==> Poor(info, 64, -130)
  {
  }

  /** The 8-bit count is the real one exactly for less than 64 uplink repetitions. */
  lemma RepetitionExactIff(downlink: nat, uplink: nat)
    requires downlink < 256 && uplink < 256
    ensures Repetition(downlink, uplink) == Max(downlink, uplink * 4) <==> uplink < 64
  {
  }

  /** With 64 uplink repetitions the count is cut to 0, and the scale is the one of a good channel. */
  lemma CutRepetition()
    ensures TimeScale(Coverage(0, 32, -100)) == 500 && TimeScale(Coverage(0, 64, -100)) == 100
  {
  }
}
