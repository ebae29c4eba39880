/** Hardware never outruns software: the update partners of CEP, VIP and CBP disable the port
    in hardware before the base-port row leaves active, and enable it only after that row is
    active. Every call to the hardware layer or to the base port may fail; the claim is about
    every state in between. */
module PortHal {
  import opened RowStatus

  /** The port row, the base-port row under it, and the port in hardware. */
  datatype HwPort = HwPort(status: Status, base: Status, hal: bool)

  /** The answers of one update's collaborators. */
  datatype Answers = Answers(
    before: bool,    // what the update does first: lookups, VIP stacking, CBP interface
    configure: bool, // enable or disable in hardware
    remove: bool,    // destroy in hardware
    base: bool,      // the base-port handler
    after: bool,     // what the update does last: CBP interface removal
    renewed: bool)   // a CBP got a new interface, and with it a return value that stays true

  predicate Safe(x: HwPort) {
    x.hal ==> x.base == Active
  }

  predicate AllSafe(xs: seq<HwPort>) {
    forall i | 0 <= i < |xs| :: Safe(xs[i])
  }

  /** The states an operation passes through after its first, and whether it completed. */
  datatype Trace = Trace(states: seq<HwPort>, ok: bool)

  function Last(x: HwPort, xs: seq<HwPort>): HwPort {
    if xs == [] then x else xs[|xs| - 1]
  }

  /** ieee8021BridgeXPortRowStatus_halUpdate. */
  function HalTrace(x: HwPort, want: Status, a: Answers): Trace {
    var enable := want == Active && x.status != Active;
    var disable := want != Active && x.status == Active;
    if (enable || disable) && !a.configure then Trace([], false)
    else
      var y := x.(hal := if enable then true else if disable then false else x.hal);
      if want != Destroy then Trace([y], true)
      else if a.remove then Trace([y, y.(hal := false)], true)
      else Trace([y], false)
  }

  /** ieee8021BridgeBasePortRowStatus_handler, as far as the row's status goes. */
  function BaseTrace(x: HwPort, want: Status, a: Answers): Trace {
    if x.base == want then Trace([], true)
    else if want == CreateAndGo then Trace([], false)
    else if want == CreateAndWait then Trace([x.(base := NotInService)], true)
    else if !a.base then Trace([], false)
    else Trace([x.(base := if want == Destroy then NotInService else want)], true)
  }

  function Then(first: Trace, second: Trace): Trace {
    Trace(first.states + second.states, second.ok)
  }

  /** Hardware down, unless the port is to be active; then the base port. */
  function ChangeTrace(x: HwPort, want: Status, a: Answers): Trace {
    var down := if want != Active then HalTrace(x, want, a) else Trace([], true);
    if !down.ok then down else Then(down, BaseTrace(Last(x, down.states), want, a))
  }

  /** The update partner: what it does to hardware and base port, in its order. */
  function UpdateTrace(x: HwPort, want: Status, a: Answers): Trace {
    if !a.before then Trace([], false)
    else
      var base := ChangeTrace(x, want, a);
      if !base.ok then base
      else if want == Active then Then(base, HalTrace(Last(x, base.states), want, a))
      else Trace(base.states, a.after)
  }

  /** What the update partner returns: a CBP that got a new interface reports success
      whatever fails later. */
  function Returned(want: Status, a: Answers, completed: bool): bool {
    completed || (a.before && a.renewed && want == Active)
  }

  /** What the update does in one handler call, and the status the call stores after it. */
  function Updating(kind: Kind, x: HwPort, c: Call, a: Answers): Trace {
    var asked := Asked(kind, x.status, c);
    if asked == [] then Trace([], true) else UpdateTrace(x, asked[0], a)
  }

  function NextStatus(kind: Kind, x: HwPort, c: Call, a: Answers): Status {
    var asked := Asked(kind, x.status, c);
    var updates := asked != [] && Returned(asked[0], a, Updating(kind, x, c, a).ok);
    Handle(kind, x.status, c.req, c.fromParent, c.env.(updates := updates)).0
  }

  /** One handler call with its update. */
  function CallTrace(kind: Kind, x: HwPort, c: Call, a: Answers): seq<HwPort> {
    var t := Updating(kind, x, c, a);
    t.states + [Last(x, t.states).(status := NextStatus(kind, x, c, a))]
  }

  /** The states of a call, or of a commit of the row's status, which touches nothing else. */
  function TurnTrace(kind: Kind, x: HwPort, turn: Turn, a: Answers): seq<HwPort> {
    match turn
    case Called(c) => CallTrace(kind, x, c, a)
    case Commit(active) => [x.(status := Committed(active))]
  }

  /** No collaborator is asked. */
  function Idle(): Answers {
    Answers(false, false, false, false, false, false)
  }

  /** The port row with its hardware and base port, and a log of the states passed through. */
  class PortRow {
    const kind: Kind
    var status: Status
    var base: Status
    var hal: bool
    ghost var log: seq<HwPort>

    ghost function View(): HwPort
      reads this
    {
      HwPort(status, base, hal)
    }

    constructor (kind: Kind)
      ensures this.kind == kind && View() == HwPort(NotInService, NotInService, false) && log == []
    {
      this.kind, status, base, hal, log := kind, NotInService, NotInService, false, [];
    }

    method HalUpdate(want: Status, a: Answers) returns (ok: bool)
      modifies this`hal, this`log
      ensures var t := HalTrace(old(View()), want, a);
        log == old(log) + t.states && View() == Last(old(View()), t.states) && ok == t.ok
    {
      var enable := want == Active && status != Active;
      var disable := want != Active && status == Active;
      if (enable || disable) && !a.configure {
        return false;
      }
      if enable {
        hal := true;
      } else if disable {
        hal := false;
      }
      log := log + [View()];
      if want == Destroy {
        if !a.remove {
          return false;
        }
        hal := false;
        log := log + [View()];
      }
      ok := true;
    }

    method BaseHandler(want: Status, a: Answers) returns (ok: bool)
      modifies this`base, this`log
      ensures var t := BaseTrace(old(View()), want, a);
        log == old(log) + t.states && View() == Last(old(View()), t.states) && ok == t.ok
    {
      if base == want {
        return true;
      }
      if want == CreateAndGo || (want != CreateAndWait && !a.base) {
        return false;
      }
      base := if want == Destroy || want == CreateAndWait then NotInService else want;
      log := log + [View()];
      ok := true;
    }

    method Change(want: Status, a: Answers) returns (ok: bool)
      modifies this`hal, this`base, this`log
      ensures var t := ChangeTrace(old(View()), want, a);
        log == old(log) + t.states && View() == Last(old(View()), t.states) && ok == t.ok
    {
      if want != Active {
        ok := HalUpdate(want, a);
        if !ok {
          return;
        }
      }
      ok := BaseHandler(want, a);
    }

    method Update(want: Status, a: Answers) returns (ok: bool)
      modifies this`hal, this`base, this`log
      ensures var t := UpdateTrace(old(View()), want, a);
        log == old(log) + t.states && View() == Last(old(View()), t.states) && ok == Returned(want, a, t.ok)
    {
      if !a.before {
        return false;
      }
      ok := a.renewed && want == Active;
      var changed := Change(want, a);
      if !changed {
        return;
      }
      if want == Active {
        var enabled := HalUpdate(want, a);
        if !enabled {
          return;
        }
      }
      if want != Active && !a.after {
        return;
      }
      ok := true;
    }

    /** The guards and the switch of the handler, up to the assignment of the status. */
    method Switch(c: Call, a: Answers) returns (next: Status)
      modifies this`hal, this`base, this`log
      ensures var t := Updating(kind, old(View()), c, a);
        && log == old(log) + t.states && View() == Last(old(View()), t.states)
        && next == NextStatus(kind, old(View()), c, a)
    {
      next := status;
      if (kind != Pip && !c.env.found) || status == c.req || Ignored(status, c.req, c.fromParent) {
        return;
      }
      var ok := false;
      match c.req {
        case Active =>
          if c.env.guard {
            var actual := if Demoted(kind, c.fromParent, c.env) then NotReady else Active;
            ok := Update(actual, a);
            next := if ok then actual else status;
          }
        case NotInService =>
          ok := Update(NotInService, a);
          next := if !ok then status else if status == Active && c.fromParent then NotReady else NotInService;
        case CreateAndGo =>
        case CreateAndWait =>
          next := NotInService;
        case Destroy =>
          ok := Update(Destroy, a);
          next := if ok then NotInService else status;
        case NotReady =>
      }
    }

    /** COMMIT's assignment to the status of the row: nothing else is touched. */
    method CommitStatus(active: bool)
      modifies this`status, this`log
      ensures log == old(log) + TurnTrace(kind, old(View()), Commit(active), Idle())
      ensures View() == Last(old(View()), TurnTrace(kind, old(View()), Commit(active), Idle()))
    {
      status := Committed(active);
      log := log + [View()];
    }

    method Handler(c: Call, a: Answers)
      modifies this
      ensures log == old(log) + CallTrace(kind, old(View()), c, a)
      ensures View() == Last(old(View()), CallTrace(kind, old(View()), c, a))
    {
      status := Switch(c, a);
      log := log + [View()];
    }
  }

  // ---- Where an update and a call end -------------------------------------------------------------

  /** The base-port handler, whatever it is asked: createAndGo is refused and createAndWait
      taken without asking anyone; the rest is its update's to refuse. */
  lemma BaseEndsIff(x: HwPort, want: Status, a: Answers)
    ensures var t := BaseTrace(x, want, a);
      && (t.ok <==> x.base == want || want == CreateAndWait || (want != CreateAndGo && a.base))
      && Last(x, t.states) == (
           if !t.ok || x.base == want then x
           else if want == CreateAndWait || want == Destroy then x.(base := NotInService)
           else x.(base := want))
  {
  }

  /** What the handlers ask of their update partner. */
  predicate Plain(want: Status) {
    Stored(want) || want == Destroy
  }

  /** The base port goes where it is asked to. */
  predicate BaseFollows(x: HwPort, want: Status, a: Answers) {
    x.base == want || a.base
  }

  /** Whatever hardware is asked on the way down is granted: an active row's port is disabled,
      and on destroy it is removed. */
  predicate HalYields(x: HwPort, want: Status, a: Answers) {
    (x.status == Active ==> a.configure) && (want == Destroy ==> a.remove)
  }

  /** The update completes. */
  predicate Completes(x: HwPort, want: Status, a: Answers) {
    && a.before && BaseFollows(x, want, a)
    && (if want == Active then x.status == Active || a.configure else HalYields(x, want, a) && a.after)
  }

  /** The update leaves the port enabled: an activation of a row that is not active enables it,
      once the base port is active and if hardware grants it; any other update leaves it as it
      was, unless it disables the port of an active row or removes the port of another. */
  predicate LeavesOn(x: HwPort, want: Status, a: Answers) {
    if want == Active then x.hal || (x.status != Active && a.before && BaseFollows(x, want, a) && a.configure)
    else x.hal && !(a.before && if x.status == Active then a.configure else want == Destroy && a.remove)
  }

  /** An update, whatever fails: when it completes, and what it leaves of hardware, base port
      and row. */
  lemma UpdateEndsIff(x: HwPort, want: Status, a: Answers)
    requires Plain(want) && Stored(x.base)
    ensures var t := UpdateTrace(x, want, a);
      var y := Last(x, t.states);
      && (t.ok <==> Completes(x, want, a))
      && (y.hal <==> LeavesOn(x, want, a))
      && (want == Active && x.status != Active && t.ok ==> y.hal)
      && y.status == x.status
      && y.base == (
        if a.before && BaseFollows(x, want, a) && (want != Active ==> HalYields(x, want, a))
        then if want == Destroy then NotInService else want
        else x.base)
  {
    if want == Active {
      UpEnds(x, a);
    } else {
      DownEnds(x, want, a);
    }
  }

  lemma UpEnds(x: HwPort, a: Answers)
    ensures var t := UpdateTrace(x, Active, a);
      var y := Last(x, t.states);
      && (t.ok <==> Completes(x, Active, a))
      && (y.hal <==> LeavesOn(x, Active, a))
      && y.status == x.status
      && y.base == if a.before && BaseFollows(x, Active, a) then Active else x.base
  {
    var base := BaseTrace(x, Active, a);
    assert UpdateTrace(x, Active, a).states ==
      if !a.before then []
      else if base.ok then base.states + HalTrace(Last(x, base.states), Active, a).states
      else base.states;
  }

  lemma DownEnds(x: HwPort, want: Status, a: Answers)
    requires Plain(want) && want != Active
    ensures var t := UpdateTrace(x, want, a);
      var y := Last(x, t.states);
      && (t.ok <==> Completes(x, want, a))
      && (y.hal <==> LeavesOn(x, want, a))
      && y.status == x.status
      && (x.base != Destroy ==>
            y.base == (
              if a.before && BaseFollows(x, want, a) && HalYields(x, want, a)
              then if want == Destroy then NotInService else want
              else x.base))
  {
    var down := HalTrace(x, want, a);
    var y := Last(x, down.states);
    assert UpdateTrace(x, want, a).states ==
      if !a.before then []
      else if down.ok then down.states + BaseTrace(y, want, a).states
      else down.states;
  }

  /** What the handler hears from its update partner. */
  predicate Heard(x: HwPort, want: Status, a: Answers) {
    Completes(x, want, a) || (want == Active && a.before && a.renewed)
  }

  /** What a call asks its update partner for, if anything. */
  function Wants(kind: Kind, s: Status, c: Call): Status {
    if Activates(kind, s, c) then (if Ready(kind, c) then Active else NotReady) else c.req
  }

  predicate Updates(kind: Kind, s: Status, c: Call) {
    Activates(kind, s, c) || TakesOut(kind, s, c)
  }

  /** A call, whatever fails: the port it leaves in hardware, and the status it stores. */
  lemma CallEndsIff(kind: Kind, x: HwPort, c: Call, a: Answers)
    requires Stored(x.base)
    ensures var y := Last(x, CallTrace(kind, x, c, a));
      var want := Wants(kind, x.status, c);
      && (y.hal <==> if Updates(kind, x.status, c) then LeavesOn(x, want, a) else x.hal)
      && y.status == Next(kind, x.status, Called(c.(env := c.env.(updates := Heard(x, want, a)))))
      && Stored(y.base)
  {
    AskedIs(kind, x.status, c);
    CallEnds(kind, x, c, a);
    var want := Wants(kind, x.status, c);
    if Updates(kind, x.status, c) {
      assert Asked(kind, x.status, c) == [want];
      UpdateEndsIff(x, want, a);
    }
  }

  predicate InStep(x: HwPort) {
    (x.hal <==> x.status == Active) && Stored(x.status) && Stored(x.base)
  }

  /** A call leaves the port on exactly while its row is active, unless an activation with a
      new interface fails and is stored all the same, or the update of an active row fails
      after it has disabled the port, or the row is told to create and wait. */
  lemma CallKeepsStepIff(kind: Kind, x: HwPort, c: Call, a: Answers)
    requires InStep(x)
    ensures var y := Last(x, CallTrace(kind, x, c, a));
      InStep(y) <==>
        && !(Activates(kind, x.status, c) && Ready(kind, c)
             && a.before && a.renewed && !(BaseFollows(x, Active, a) && a.configure))
        && !(TakesOut(kind, x.status, c) && x.status == Active
             && a.before && a.configure && !Completes(x, c.req, a))
        && !(c.req == CreateAndWait && Reached(kind, c) && x.status == Active)
  {
    CallEndsIff(kind, x, c, a);
    var t := c.(env := c.env.(updates := Heard(x, Wants(kind, x.status, c), a)));
    MovesIff(kind, x.status, t);
  }

  /** Over every run of calls in which nothing that is asked fails, the port is on exactly
      while its row is active. */
  lemma {:induction false} OnExactlyWhileActive(kind: Kind, x: HwPort, moves: seq<Move>)
    requires InStep(x) && forall i | 0 <= i < |moves| :: Granted(moves[i])
    ensures InStep(After(kind, x, moves))
  {
    if moves != [] {
      var before, m := moves[..|moves| - 1], moves[|moves| - 1];
      OnExactlyWhileActive(kind, x, before);
      assert Granted(m);
      CallKeepsStepIff(kind, After(kind, x, before), m.turn.call, m.answers);
    }
  }

  /** A call other than createAndWait, with every answer true. */
  predicate Granted(m: Move) {
    && m.turn.Called? && m.turn.call.req != CreateAndWait
    && m.answers.before && m.answers.configure && m.answers.remove && m.answers.base && m.answers.after
  }

  // ---- Safety -----------------------------------------------------------------------------------------

  /** A port enabled in hardware has an active row over an active base port. */
  predicate Tied(x: HwPort) {
    x.hal ==> x.base == Active && x.status == Active
  }

  /** The one way hardware gets ahead: the port is on though its row is not active, so a
      status other than active turns nothing off before the base port leaves active. */
  predicate Overtaken(x: HwPort, want: Status, a: Answers) {
    x.hal && x.status != Active && (want == NotReady || want == NotInService) && a.before && a.base
  }

  lemma UpSafe(x: HwPort, a: Answers)
    requires Safe(x)
    ensures AllSafe(UpdateTrace(x, Active, a).states)
  {
  }

  lemma DownSafeIff(x: HwPort, want: Status, a: Answers)
    requires Safe(x) && (want == NotInService || want == NotReady || want == Destroy)
    ensures AllSafe(UpdateTrace(x, want, a).states) <==> !Overtaken(x, want, a)
  {
    var down := HalTrace(x, want, a);
    var y := Last(x, down.states);
    if a.before && down.ok {
      assert UpdateTrace(x, want, a).states == down.states + BaseTrace(y, want, a).states;
      assert y.base == x.base && y.hal == (x.hal && x.status != Active && want != Destroy);
      if Overtaken(x, want, a) {
        assert UpdateTrace(x, want, a).states[|down.states|] == y.(base := want);
      }
    }
  }

  /** From a safe state every state a call passes through is safe, unless it is overtaken. */
  lemma CallSafeIff(kind: Kind, x: HwPort, c: Call, a: Answers)
    requires Safe(x)
    ensures AllSafe(CallTrace(kind, x, c, a))
       <==> !(Asked(kind, x.status, c) != [] && Overtaken(x, Asked(kind, x.status, c)[0], a))
  {
    var asked := Asked(kind, x.status, c);
    if asked != [] {
      if asked[0] == Active {
        UpSafe(x, a);
      } else {
        DownSafeIff(x, asked[0], a);
      }
      var states, all := UpdateTrace(x, asked[0], a).states, CallTrace(kind, x, c, a);
      assert all[..|states|] == states && |all| == |states| + 1;
      assert forall i | 0 <= i < |states| :: all[i] == states[i];
    }
  }

  /** A completed activation alone turns the port on; any other update turns it off, or stops
      before it has done anything. */
  lemma UpdateEnds(x: HwPort, want: Status, a: Answers)
    requires Tied(x) && !(want == Active && x.status == Active) && want != CreateAndGo && want != CreateAndWait
    ensures var t := UpdateTrace(x, want, a);
      var y := Last(x, t.states);
      && y.status == x.status
      && (want == Active && y.hal ==> t.ok && y.base == Active)
      && (want != Active && y.hal ==> y == x && !t.ok)
  {
    if want == Active {
      UpEnds(x, a);
    } else {
      DownEnds(x, want, a);
    }
  }

  /** A call that is not a createAndWait on an active row keeps hardware tied to the row. */
  lemma CallKeepsTied(kind: Kind, x: HwPort, c: Call, a: Answers)
    requires Tied(x) && !(c.req == CreateAndWait && x.status == Active)
    ensures Tied(Last(x, CallTrace(kind, x, c, a)))
  {
    var asked := Asked(kind, x.status, c);
    if asked != [] {
      var t := UpdateTrace(x, asked[0], a);
      var y := Last(x, t.states);
      assert Last(x, CallTrace(kind, x, c, a))
          == y.(status := Handle(kind, x.status, c.req, c.fromParent,
            c.env.(updates := Returned(asked[0], a, t.ok))).0);
      UpdateEnds(x, asked[0], a);
    }
  }

  // ---- Runs of calls and commits --------------------------------------------------------------

  datatype Move = Move(turn: Turn, answers: Answers)

  function After(kind: Kind, x: HwPort, moves: seq<Move>): HwPort {
    if moves == [] then x else
      var y, m := After(kind, x, moves[..|moves| - 1]), moves[|moves| - 1];
      Last(y, TurnTrace(kind, y, m.turn, m.answers))
  }

  /** Every state of a run. */
  function History(kind: Kind, x: HwPort, moves: seq<Move>): seq<HwPort> {
    if moves == [] then [x] else
      var m := moves[|moves| - 1];
      History(kind, x, moves[..|moves| - 1])
      + TurnTrace(kind, After(kind, x, moves[..|moves| - 1]), m.turn, m.answers)
  }

  /** Not Tied: a commit of notInService leaves the port on. But a row that its handler made
      notReady has its port off, and so never has it on under a base port that is down. */
  predicate Held(x: HwPort) {
    Stored(x.status) && (x.hal ==> x.base == Active && x.status != NotReady)
  }

  /** The one call that goes wrong on such a port: it asks for the row to be notReady while the
      port is on. The row is notInService, and an administrator activates it under a component
      that is down, or a VIP without its mapping. */
  predicate Overtakes(kind: Kind, x: HwPort, m: Move) {
    && m.turn.Called? && x.hal && Asked(kind, x.status, m.turn.call) == [NotReady]
    && m.answers.before && m.answers.base
  }

  lemma HeldAfterUpdate(x: HwPort, want: Status, a: Answers)
    requires Held(x) && (want == Active || want == NotInService || want == NotReady || want == Destroy)
    requires (want == NotReady || want != x.status) && !(x.hal && want == NotReady && a.before && a.base)
    ensures var t := UpdateTrace(x, want, a);
      var y := Last(x, t.states);
      && y.status == x.status && (y.hal ==> y.base == Active)
      && (y.hal && want == NotReady ==> !t.ok)
      && (y.hal && want == NotInService && x.status == Active ==> !t.ok)
      && (y.hal && !x.hal ==> want == Active && t.ok)
  {
    if want == Active {
      UpEnds(x, a);
    } else {
      DownEnds(x, want, a);
    }
  }

  lemma CallEnds(kind: Kind, x: HwPort, c: Call, a: Answers)
    ensures Last(x, CallTrace(kind, x, c, a))
      == Last(x, Updating(kind, x, c, a).states).(status := NextStatus(kind, x, c, a))
  {
  }

  /** The status a call stores, given what its update came to. */
  lemma NextStatusIs(kind: Kind, x: HwPort, c: Call, a: Answers)
    requires Stored(x.status) && (c.fromParent ==> ParentSends(c.req))
    ensures var asked, next := Asked(kind, x.status, c), NextStatus(kind, x, c, a);
      && Stored(next)
      && (asked == [Active] && Updating(kind, x, c, a).ok ==> next == Active)
      && (next == NotReady && next != x.status ==>
            asked != [] && Updating(kind, x, c, a).ok
            && (asked == [NotReady] || (asked == [NotInService] && x.status == Active)))
  {
  }

  lemma CallKeepsHeld(kind: Kind, x: HwPort, c: Call, a: Answers)
    requires Held(x) && (c.fromParent ==> ParentSends(c.req))
    requires !Overtakes(kind, x, Move(Called(c), a))
    ensures Held(Last(x, CallTrace(kind, x, c, a)))
  {
    CallEnds(kind, x, c, a);
    NextStatusIs(kind, x, c, a);
    var asked, t := Asked(kind, x.status, c), Updating(kind, x, c, a);
    var y, next := Last(x, t.states), NextStatus(kind, x, c, a);
    if asked == [] {
      assert y == x;
    } else {
      AskedIsPlain(kind, x.status, c);
      HeldAfterUpdate(x, asked[0], a);
      assert asked == [asked[0]];
      assert next == NotReady ==> !y.hal;
    }
  }

  lemma AskedIsPlain(kind: Kind, s: Status, c: Call)
    ensures var asked := Asked(kind, s, c);
      asked == [] || (|asked| == 1
        && (asked[0] == NotReady
        || (asked[0] == c.req && s != c.req && c.req != CreateAndWait && c.req != CreateAndGo)))
  {
  }

  lemma OvertakingIs(kind: Kind, x: HwPort, c: Call, a: Answers)
    requires Held(x) && (c.fromParent ==> ParentSends(c.req))
    ensures var asked := Asked(kind, x.status, c);
      Overtakes(kind, x, Move(Called(c), a)) <==> asked != [] && Overtaken(x, asked[0], a)
  {
    AskedIsPlain(kind, x.status, c);
  }

  /** One call or commit, through every failure exit: all the states it passes through are safe
      if and only if it does not overtake, and then the port is held at the end. */
  lemma TurnSafeIff(kind: Kind, x: HwPort, m: Move)
    requires Held(x) && Plays(m)
    ensures var states := TurnTrace(kind, x, m.turn, m.answers);
      && (AllSafe(states) <==> !Overtakes(kind, x, m))
      && (!Overtakes(kind, x, m) ==> Held(Last(x, states)))
  {
    if m.turn.Called? {
      CallSafeIff(kind, x, m.turn.call, m.answers);
      OvertakingIs(kind, x, m.turn.call, m.answers);
      if !Overtakes(kind, x, m) {
        CallKeepsHeld(kind, x, m.turn.call, m.answers);
      }
    }
  }

  predicate Plays(m: Move) {
    m.turn.Called? && m.turn.call.fromParent ==> ParentSends(m.turn.call.req)
  }

  /** Whatever fails, over every run of calls and commits that never overtakes, hardware is
      enabled only over an active base port, in every state passed through. */
  lemma {:induction false} HardwareNeverAhead(kind: Kind, x: HwPort, moves: seq<Move>)
    requires Held(x) && forall i | 0 <= i < |moves| :: Plays(moves[i])
    requires forall i | 0 <= i < |moves| :: !Overtakes(kind, After(kind, x, moves[..i]), moves[i])
    ensures AllSafe(History(kind, x, moves)) && Held(After(kind, x, moves))
  {
    if moves != [] {
      var before, m := moves[..|moves| - 1], moves[|moves| - 1];
      assert forall i | 0 <= i < |before| :: moves[..i] == before[..i];
      HardwareNeverAhead(kind, x, before);
      assert Plays(m) && !Overtakes(kind, After(kind, x, before), m);
      TurnSafeIff(kind, After(kind, x, before), m);
    }
  }

  /** What the program does to these rows: commits, and calls for the parent. */
  predicate InProgram(m: Move) {
    m.turn.Called? ==> m.turn.call.fromParent && ParentSends(m.turn.call.req)
  }

  /** Over every run of commits and parent calls, whatever fails, hardware is never ahead. */
  lemma {:induction false} ProgramNeverAhead(kind: Kind, x: HwPort, moves: seq<Move>)
    requires Held(x) && forall i | 0 <= i < |moves| :: InProgram(moves[i])
    ensures AllSafe(History(kind, x, moves)) && Held(After(kind, x, moves))
  {
    if moves != [] {
      var before, m := moves[..|moves| - 1], moves[|moves| - 1];
      ProgramNeverAhead(kind, x, before);
      assert InProgram(m);
      TurnSafeIff(kind, After(kind, x, before), m);
    }
  }

  /** Over every run of handler calls that never sends createAndWait to an active row, hardware
      is never ahead, and an enabled port has an active row besides. */
  lemma {:induction false} CallsKeepTied(kind: Kind, x: HwPort, moves: seq<Move>)
    requires Tied(x) && forall i | 0 <= i < |moves| :: moves[i].turn.Called?
    requires forall i | 0 <= i < |moves| ::
      !(moves[i].turn.call.req == CreateAndWait && After(kind, x, moves[..i]).status == Active)
    ensures AllSafe(History(kind, x, moves)) && Tied(After(kind, x, moves))
  {
    if moves != [] {
      var before, m := moves[..|moves| - 1], moves[|moves| - 1];
      assert forall i | 0 <= i < |before| :: moves[..i] == before[..i];
      CallsKeepTied(kind, x, before);
      var y := After(kind, x, before);
      CallKeepsTied(kind, y, m.turn.call, m.answers);
      CallSafeIff(kind, y, m.turn.call, m.answers);
    }
  }

  /** An activation under a component that is down. */
  function DownCall(): Call {
    Call(Active, false, Env(true, true, false, true, true))
  }

  /** With that createAndWait hardware does get ahead: the row goes notInService with the port
      left on, and an activation under a component that is down takes the base port away. */
  lemma CreateAndWaitBreaksIt(a: Answers)
    requires a.before && a.base
    ensures var up := HwPort(Active, Active, true);
      var wait := Call(CreateAndWait, false, Env(true, true, true, true, true));
      var waiting := Last(up, CallTrace(Kind.Port, up, wait, a));
      var end := Last(waiting, CallTrace(Kind.Port, waiting, DownCall(), a));
      Tied(up) && end.hal && end.base == NotReady
  {
  }

  /** A commit of notInService leaves the port on in the same way. */
  lemma CommitLeavesItOn(a: Answers)
    requires a.before && a.base
    ensures var up := HwPort(Active, Active, true);
      var off := Last(up, TurnTrace(Kind.Port, up, Commit(false), a));
      var end := Last(off, CallTrace(Kind.Port, off, DownCall(), a));
      Tied(up) && off.hal && !Tied(off) && Held(off) && end.hal && end.base == NotReady
  {
  }
}
