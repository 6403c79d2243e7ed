/** Nested switching off of the modem in `modem_at.c`: `modem_at_push_off`, `modem_at_restore` and
    `modem_at_system_mode_set`. The functional mode itself is kept by the modem library. */
module ModeStack {

  const POWER_OFF: int := 0
  const NO_MODE: int := -1
  const EINVAL := 22
  const EBUSY := 16

  /** The modem's mode, `pushs_counter` and `previous_mode`. */
  datatype Stack = Stack(mode: int, pushes: nat, previous: int)

  /** `got` and `put` are the results of reading and of changing the mode in the library, 0 for success. */
  function PushedOff(s: Stack, got: int, put: int): (r: (Stack, int)) {
    if got != 0 then (s, got)
    else if s.previous == NO_MODE then
      if s.mode == POWER_OFF then (s.(previous := s.mode, pushes := s.pushes + 1), 0)
      else if put != 0 then (s, put)
      else (Stack(POWER_OFF, s.pushes + 1, s.mode), 0)
    else if s.mode == POWER_OFF then (s.(pushes := s.pushes + 1), 0)
    else (s, -EBUSY)
  }

  function Restored(s: Stack, put: int): (r: (Stack, int)) {
    if s.pushes == 0 then (s, -EINVAL)
    else if s.pushes > 1 || s.previous == NO_MODE then (s.(pushes := s.pushes - 1), -EINVAL)
    else if s.previous == POWER_OFF then (Stack(s.mode, 0, NO_MODE), 0)
    else if put != 0 then (s, put)
    else (Stack(s.previous, 0, NO_MODE), 0)
  }

  datatype Op = Push(got: int, put: int) | Pop(put: int)

  function Step(s: Stack, op: Op): Stack {
    match op
    case Push(got, put) => PushedOff(s, got, put).0
    case Pop(put) => Restored(s, put).0
  }

  function Run(s: Stack, ops: seq<Op>): Stack
    decreases |ops|
  {
    if ops == [] then s else Run(Step(s, ops[0]), ops[1..])
  }

  /** Nesting depth, counted independently of the code: a push that succeeds goes one level in, a restore
      one level out, unless it is the outermost one and the modem refuses the mode. */
  function Depth(mode: int, depth: nat, ops: seq<Op>): nat
    decreases |ops|
  {
    if ops == [] then depth
    else
      var next: nat := match ops[0]
        case Push(got, put) => if got == 0 && (put == 0 || depth > 0 || mode == POWER_OFF) then depth + 1 else depth
        case Pop(put) => if depth == 0 || (depth == 1 && put != 0 && mode != POWER_OFF) then depth else depth - 1;
      Depth(mode, next, ops[1..])
  }

  /** Off strictly inside, in the original mode outside, and a mode is kept exactly inside. */
  ghost predicate Nested(s: Stack, mode: int, depth: nat) {
    && mode != NO_MODE
    && s.pushes == depth
    && s.previous == (if depth == 0 then NO_MODE else mode)
    && s.mode == (if depth == 0 then mode else POWER_OFF)
  }

  /** Over every sequence of pushes and restores without other mode changes, whatever the library
      answers: the counter is the depth, and the modem is off inside and back in its mode outside. */
  lemma {:induction false} StackFollowsDepth(s: Stack, mode: int, depth: nat, ops: seq<Op>)
    requires Nested(s, mode, depth)
    ensures Nested(Run(s, ops), mode, Depth(mode, depth, ops))
    decreases |ops|
  {
    if ops != [] {
      var next: nat := match ops[0]
        case Push(got, put) => if got == 0 && (put == 0 || depth > 0 || mode == POWER_OFF) then depth + 1 else depth
        case Pop(put) => if depth == 0 || (depth == 1 && put != 0 && mode != POWER_OFF) then depth else depth - 1;
      StackFollowsDepth(Step(s, ops[0]), mode, next, ops[1..]);
    }
  }

  /** Properly nested successful pairs. */
  datatype Nest = Pair(inner: seq<Nest>)

  function OpsOf(nests: seq<Nest>): seq<Op> {
    if nests == [] then []
    else [Push(0, 0)] + OpsOf(nests[0].inner) + [Pop(0)] + OpsOf(nests[1..])
  }

  lemma {:induction false} RunAppend(s: Stack, xs: seq<Op>, ys: seq<Op>)
    ensures Run(s, xs + ys) == Run(Run(s, xs), ys)
    decreases |xs|
  {
    if xs == [] {
      assert xs + ys == ys;
    } else {
      assert (xs + ys)[1..] == xs[1..] + ys;
      RunAppend(Step(s, xs[0]), xs[1..], ys);
    }
  }

  lemma RunOne(s: Stack, op: Op)
    ensures Run(s, [op]) == Step(s, op)
  {
    assert [op][1..] == [];
  }

  /** Properly nested pairs undo themselves, at any depth. */
  lemma {:induction false} NestsUndo(s: Stack, mode: int, depth: nat, nests: seq<Nest>)
    requires Nested(s, mode, depth)
    ensures Run(s, OpsOf(nests)) == s
    decreases nests
  {
    if nests != [] {
      var inner, rest := OpsOf(nests[0].inner), OpsOf(nests[1..]);
      var s1 := Step(s, Push(0, 0));
      RunOne(s, Push(0, 0));
      NestsUndo(s1, mode, depth + 1, nests[0].inner);
      RunOne(s1, Pop(0));
      NestsUndo(s, mode, depth, nests[1..]);
      RunAppend(s, [Push(0, 0)], inner);
      RunAppend(s, [Push(0, 0)] + inner, [Pop(0)]);
      RunAppend(s, [Push(0, 0)] + inner + [Pop(0)], rest);
    }
  }

  /** A push reports success exactly when it went one level in, and otherwise changes nothing: with the error of
      reading the mode, the error of switching off, or -EBUSY when the modem is on inside of a push. */
  lemma PushReports(s: Stack, got: int, put: int)
    ensures
      var (s', res) := PushedOff(s, got, put);
      && (res == 0 <==> s'.pushes == s.pushes + 1 && s'.mode == 0)
      && (res != 0 ==> s' == s)
      && (res == 0 <==> got == 0 && (s.mode == 0 || (s.previous == NO_MODE && put == 0)))
      && (got != 0 ==> res == got)
      && (got == 0 && s.mode != 0 ==> res == if s.previous == NO_MODE then put else -16)
  {
  }

  /** A restore reports success exactly when it was the outermost one and the modem took the mode: inner
      restores pop their level and still report an error. */
  lemma RestoreReports(s: Stack, mode: int, depth: nat, put: int)
    requires Nested(s, mode, depth)
    ensures Restored(s, put).1 == 0 <==> depth == 1 && (put == 0 || mode == POWER_OFF)
    ensures depth > 1 ==> Restored(s, put).0.pushes == depth - 1 && Restored(s, put).1 == -EINVAL
  {
  }

  class ModemAt {
    var mode: int      // in the modem
    var pushes: nat
    var previous: int

    ghost function View(): Stack
      reads this
    {
      Stack(mode, pushes, previous)
    }

    method PushOff(got: int, put: int) returns (res: int)
      modifies this
      ensures (View(), res) == PushedOff(old(View()), got, put)
    {
      res := got;
      if res == 0 {
        var push := previous == NO_MODE;
        if push {
          previous := mode;
        }
        if push || mode == POWER_OFF {
          pushes := pushes + 1;
          if push && mode != POWER_OFF {
            res := put;
            if res == 0 {
              mode := POWER_OFF;
            } else {
              previous := NO_MODE;
              pushes := pushes - 1;
            }
          }
        } else {
          res := -EBUSY;
        }
      }
    }

    method Restore(put: int) returns (res: int)
      modifies this
      ensures (View(), res) == Restored(old(View()), put)
    {
      res := -EINVAL;
      if pushes > 0 {
        pushes := pushes - 1;
        if pushes == 0 && previous != NO_MODE {
          if previous != POWER_OFF {
            res := put;
            if res == 0 {
              mode := previous;
            } else {
              pushes := pushes + 1;
            }
          } else {
            res := 0;
          }
          if res == 0 {
            previous := NO_MODE;
          }
        }
      }
    }

    /** `modem_at_system_mode_set`: the system mode is set only inside a successful push-off, but a failed
        push-off is reported as success. */
    method SystemModeSet(got: int, setOff: int, setSystem: int, setBack: int) returns (res: int, applied: bool)
      modifies this
      ensures applied <==> PushedOff(old(View()), got, setOff).1 == 0
      ensures res == if applied then setSystem else 0
      ensures forall m, depth | old(Nested(View(), m, depth)) ::
        Nested(View(), m, Depth(m, depth, [Push(got, setOff)] + if applied then [Pop(setBack)] else []))
    {
      ghost var before := View();
      res, applied := 0, false;
      var pushed := PushOff(got, setOff);
      if pushed == 0 {
        res, applied := setSystem, true;
        var _ := Restore(setBack);
      }
      ghost var ops := [Push(got, setOff)] + if applied then [Pop(setBack)] else [];
      assert View() == Run(before, ops) by {
        RunOne(before, Push(got, setOff));
        RunOne(Step(before, Push(got, setOff)), Pop(setBack));
        RunAppend(before, [Push(got, setOff)], if applied then [Pop(setBack)] else []);
      }
      forall m, depth | Nested(before, m, depth)
        ensures Nested(View(), m, Depth(m, depth, ops))
      {
        StackFollowsDepth(before, m, depth, ops);
      }
    }
  }
}
