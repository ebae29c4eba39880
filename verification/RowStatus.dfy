/** The row-status handlers of the provider-bridge and backbone-bridge ports: a state machine
    over active, notInService and notReady (RowStatus, section 2 of RFC 2579), driven by the
    administrator and, with a flag, by the parent component. */
module RowStatus {

  datatype Status = Active | NotInService | NotReady | CreateAndGo | CreateAndWait | Destroy

  /** Which handler: `Port` is the one shared by PNP, CEP and CBP, and by CNP and C-VID
      registrations with a guard on activation. */
  datatype Kind = Port | Pip | Vip

  /** What a handler call finds around it: its collaborators' lookups and answers. */
  datatype Env = Env(
    found: bool,          // the parent component's row exists
    guard: bool,          // the columns activation depends on are set
    parentActive: bool,   // the stored status of the parent component
    ready: bool,          // PIP: attached to a component; VIP: mapped by an active row, with a destination address
    updates: bool)        // the update partner succeeds

  /** The statuses a row can store. */
  predicate Stored(s: Status) {
    s == Active || s == NotInService || s == NotReady
  }

  predicate Demoted(kind: Kind, fromParent: bool, e: Env) {
    match kind
    case Port => !fromParent && !e.parentActive
    case Pip => !e.ready
    case Vip => (!fromParent && !e.parentActive) || !e.ready
  }

  /** The parent's word concerns only rows it took down (when it comes up) or that are up
      (when it goes down). */
  predicate Ignored(s: Status, req: Status, fromParent: bool) {
    fromParent && ((req == Active && s != NotReady) || (req == NotInService && s != Active))
  }

  /** The new status and the handler's answer. */
  function Handle(kind: Kind, s: Status, req: Status, fromParent: bool, e: Env): (Status, bool) {
    if kind != Pip && !e.found then (s, fromParent)
    else if s == req || Ignored(s, req, fromParent) then (s, true)
    else match req
      case Active =>
        if !e.guard || !e.updates then (s, fromParent)
        else (if Demoted(kind, fromParent, e) then NotReady else Active, true)
      case NotInService =>
        if !e.updates then (s, fromParent)
        else (if s == Active && fromParent then NotReady else NotInService, true)
      case NotReady => (s, true)
      case CreateAndGo => (s, fromParent)
      case CreateAndWait => (NotInService, true)
      case Destroy => if e.updates then (NotInService, true) else (s, fromParent)
  }

  /** What a parent component passes on to its ports. */
  predicate ParentSends(req: Status) {
    req == Active || req == NotInService || req == Destroy
  }

  datatype Call = Call(req: Status, fromParent: bool, env: Env)

  /** The status the handler passes to its update partner, if it calls it. */
  function Asked(kind: Kind, s: Status, c: Call): seq<Status> {
    if (kind != Pip && !c.env.found) || s == c.req || Ignored(s, c.req, c.fromParent) then []
    else match c.req
      case Active => if !c.env.guard then [] else if Demoted(kind, c.fromParent, c.env) then [NotReady] else [Active]
      case NotInService => [NotInService]
      case Destroy => [Destroy]
      case _ => []
  }

  function Committed(active: bool): Status {
    if active then Active else NotInService
  }

  class Row {
    const kind: Kind
    var status: Status

    constructor (kind: Kind)
      ensures this.kind == kind && status == NotInService
    {
      this.kind, status := kind, NotInService;
    }

    /** COMMIT's assignment to the status: active for active and createAndGo, notInService
        for notInService and createAndWait. Neither handler nor update is called. */
    method Commit(active: bool)
      modifies this
      ensures status == Committed(active)
    {
      status := if active then Active else NotInService;
    }

    /** The handler as written: guards, then a switch over the requested status. `asked` is
        the status it hands to its update partner, if it gets that far. */
    method Handler(req: Status, fromParent: bool, e: Env) returns (ok: bool, ghost asked: seq<Status>)
      modifies this
      ensures (status, ok) == Handle(kind, old(status), req, fromParent, e)
      ensures asked == Asked(kind, old(status), Call(req, fromParent, e))
    {
      var actual := req;
      asked := [];
      if kind != Pip && !e.found {
        return fromParent, [];
      }
      if status == actual {
        return true, [];
      }
      if fromParent && ((actual == Active && status != NotReady) || (actual == NotInService && status != Active)) {
        return true, [];
      }
      match actual {
        case Active =>
          if !e.guard {
            return fromParent, [];
          }
          if kind != Pip && !fromParent && !e.parentActive {
            actual := NotReady;
          }
          if kind != Port && !e.ready {
            actual := NotReady;
          }
          asked := [actual];
          if !e.updates {
            return fromParent, asked;
          }
          status := actual;
        case NotInService =>
          asked := [NotInService];
          if !e.updates {
            return fromParent, asked;
          }
          status := if status == Active && fromParent then NotReady else NotInService;
        case CreateAndGo =>
          return fromParent, [];
        case CreateAndWait =>
          status := NotInService;
        case Destroy =>
          asked := [Destroy];
          if !e.updates {
            return fromParent, asked;
          }
          status := NotInService;
        case NotReady =>
      }
      ok := true;
    }
  }

  // ---- What one call does, in so many words -----------------------------------------------------

  predicate Reached(kind: Kind, c: Call) {
    kind == Pip || c.env.found
  }

  /** The row is let up, once its component and its mapping are: a row told by its parent does
      not look at the parent's stored status, which is written later. */
  predicate Ready(kind: Kind, c: Call) {
    && (kind == Pip || c.fromParent || c.env.parentActive)
    && (kind == Kind.Port || c.env.ready)
  }

  /** The call asks for an activation. */
  predicate Activates(kind: Kind, s: Status, c: Call) {
    && c.req == Active && s != Active && Reached(kind, c) && c.env.guard
    && (c.fromParent ==> s == NotReady)
  }

  /** The call asks for a row to go out of service: a parent does so only for an active row. */
  predicate TakesOut(kind: Kind, s: Status, c: Call) {
    && Reached(kind, c)
    && ((c.req == NotInService && s != NotInService && (c.fromParent ==> s == Active))
      || (c.req == Destroy && s != Destroy))
  }

  /** The update partner is called for these two, and gets active only for a row that is let
      up. */
  lemma AskedIs(kind: Kind, s: Status, c: Call)
    ensures Asked(kind, s, c) ==
      if Activates(kind, s, c) then (if Ready(kind, c) then [Active] else [NotReady])
      else if TakesOut(kind, s, c) then [c.req]
      else []
  {
  }

  /** A call whose update fails leaves the status, and answers failure exactly to the
      administrator. */
  lemma FailedUpdateIsNoChange(kind: Kind, s: Status, c: Call)
    requires Activates(kind, s, c) || TakesOut(kind, s, c)
    requires !c.env.updates
    ensures Handle(kind, s, c.req, c.fromParent, c.env) == (s, c.fromParent)
  {
  }

  /** The status a call brings a stored row to, if it does: active by an update to active
      alone; notReady where a row is not let up, or its parent takes it down; notInService by
      a request for it, to destroy, or to create and wait. */
  lemma MovesIff(kind: Kind, s: Status, c: Call)
    requires Stored(s)
    ensures var next := Handle(kind, s, c.req, c.fromParent, c.env).0;
      && Stored(next)
      && (s != Active ==> (next == Active <==> Activates(kind, s, c) && Ready(kind, c) && c.env.updates))
      && (s != NotReady ==>
            (next == NotReady <==>
              && c.env.updates
              && ((Activates(kind, s, c) && !Ready(kind, c))
                  || (TakesOut(kind, s, c) && c.req == NotInService && c.fromParent))))
      && (s != NotInService ==>
            (next == NotInService <==>
              || (TakesOut(kind, s, c) && c.env.updates && (c.req == Destroy || !c.fromParent))
              || (c.req == CreateAndWait && Reached(kind, c))))
  {
  }

  /** Only the administrator is ever refused: a row without its parent, an activation without
      its columns, createAndGo, or an update that fails. */
  lemma RefusedIff(kind: Kind, s: Status, c: Call)
    requires Stored(s)
    ensures !Handle(kind, s, c.req, c.fromParent, c.env).1 <==>
      && !c.fromParent
      && (|| !Reached(kind, c)
          || c.req == CreateAndGo
          || (c.req == Active && s != Active && !c.env.guard)
          || ((Activates(kind, s, c) || TakesOut(kind, s, c)) && !c.env.updates))
  {
  }

  // ---- Runs with arbitrary failures -----------------------------------------------------------

  /** What can happen to the status of a row. The administrator's SET commits a status; the
      handlers can be called by anyone, though the program calls those of these ports for the
      parent only. */
  datatype Turn = Called(call: Call) | Commit(active: bool)

  predicate Plausible(turn: Turn) {
    turn.Called? && turn.call.fromParent ==> ParentSends(turn.call.req)
  }

  function Next(kind: Kind, s: Status, turn: Turn): Status {
    match turn
    case Called(c) => Handle(kind, s, c.req, c.fromParent, c.env).0
    case Commit(active) => Committed(active)
  }

  function Run(kind: Kind, s: Status, turns: seq<Turn>): Status {
    if turns == [] then s else Next(kind, Run(kind, s, turns[..|turns| - 1]), turns[|turns| - 1])
  }

  /** The administrator's standing wish, as the answers to the calls leave it: what the last
      commit or accepted request said. A parent that destroys the row withdraws it. */
  function Wanted(kind: Kind, s: Status, turns: seq<Turn>): bool {
    if turns == [] then s != NotInService else
      var before := turns[..|turns| - 1];
      var was := Wanted(kind, s, before);
      match turns[|turns| - 1]
      case Commit(active) => active
      case Called(c) =>
        var accepted := Handle(kind, Run(kind, s, before), c.req, c.fromParent, c.env).1;
        if c.fromParent then was && !(c.req == Destroy && (kind == Pip || c.env.found) && c.env.updates)
        else if !accepted then was
        else match c.req
          case Active => true
          case NotReady => was
          case _ => false
  }

  /** Over every run, whatever fails: the stored status is one of the three, and it is
      notInService exactly while the administrator does not want the row. */
  lemma {:induction false} WantedIffInService(kind: Kind, s: Status, turns: seq<Turn>)
    requires Stored(s) && forall i | 0 <= i < |turns| :: Plausible(turns[i])
    ensures Stored(Run(kind, s, turns))
    ensures Wanted(kind, s, turns) <==> Run(kind, s, turns) != NotInService
  {
    if turns != [] {
      WantedIffInService(kind, s, turns[..|turns| - 1]);
      assert Plausible(turns[|turns| - 1]);
    }
  }

  /** No sequence of parent events, or of commits of notInService, brings up a row that is
      notInService, and no parent event is ever answered with a failure. */
  lemma {:induction false} ParentNeverActivates(kind: Kind, turns: seq<Turn>)
    requires forall i | 0 <= i < |turns| :: if turns[i].Called? then turns[i].call.fromParent else !turns[i].active
    ensures Run(kind, NotInService, turns) == NotInService
    ensures forall i | 0 <= i < |turns| && turns[i].Called? ::
      Handle(kind, Run(kind, NotInService, turns[..i]), turns[i].call.req, true, turns[i].call.env).1
  {
    if turns != [] {
      ParentNeverActivates(kind, turns[..|turns| - 1]);
    }
  }

  /** The turn brings a row up: a commit of active, or a call whose update to active succeeds. */
  predicate BringsUp(kind: Kind, s: Status, turn: Turn) {
    match turn
    case Called(c) => Activates(kind, s, c) && Ready(kind, c) && c.env.updates
    case Commit(active) => active
  }

  /** The turn takes an active row down. */
  predicate TakesDown(kind: Kind, turn: Turn) {
    match turn
    case Called(c) =>
      Reached(kind, c) && (((c.req == NotInService || c.req == Destroy) && c.env.updates) || c.req == CreateAndWait)
    case Commit(active) => !active
  }

  /** Turn i brought the row up and nothing has taken it down since. */
  predicate UpSince(kind: Kind, s: Status, turns: seq<Turn>, i: nat)
    requires i < |turns|
  {
    BringsUp(kind, Run(kind, s, turns[..i]), turns[i]) && forall j | i < j < |turns| :: !TakesDown(kind, turns[j])
  }

  /** Over every run, whatever fails, a row is active exactly if some turn brought it up - a
      commit of active, or a call whose update to active succeeded - and none took it down
      since, or it was active from the start and none has. */
  lemma {:induction false} ActiveIff(kind: Kind, s: Status, turns: seq<Turn>)
    requires Stored(s) && forall i | 0 <= i < |turns| :: Plausible(turns[i])
    ensures Run(kind, s, turns) == Active <==>
      || (s == Active && forall j | 0 <= j < |turns| :: !TakesDown(kind, turns[j]))
      || exists i | 0 <= i < |turns| :: UpSince(kind, s, turns, i)
  {
    if turns != [] {
      var n := |turns| - 1;
      var before, turn := turns[..n], turns[n];
      ActiveIff(kind, s, before);
      WantedIffInService(kind, s, before);
      NextActiveIff(kind, Run(kind, s, before), turn);
      forall i | 0 <= i < n
        ensures UpSince(kind, s, turns, i) <==> UpSince(kind, s, before, i) && !TakesDown(kind, turn)
      {
        UpSinceStep(kind, s, turns, i);
      }
      assert turns[..n] == before;
      assert UpSince(kind, s, turns, n) <==> BringsUp(kind, Run(kind, s, before), turn);
      assert forall j | 0 <= j < n :: before[j] == turns[j];
    }
  }

  lemma UpSinceStep(kind: Kind, s: Status, turns: seq<Turn>, i: nat)
    requires i < |turns| - 1
    ensures var before := turns[..|turns| - 1];
      UpSince(kind, s, turns, i) <==> UpSince(kind, s, before, i) && !TakesDown(kind, turns[|turns| - 1])
  {
    var before := turns[..|turns| - 1];
    assert before[..i] == turns[..i];
    assert forall j | 0 <= j < |before| :: before[j] == turns[j];
  }

  lemma NextActiveIff(kind: Kind, s: Status, turn: Turn)
    requires Stored(s)
    ensures Next(kind, s, turn) == Active <==>
      BringsUp(kind, s, turn) || (s == Active && !TakesDown(kind, turn))
  {
  }

  // ---- The two-bit specification ------------------------------------------------------------------

  /** Updates may fail: `ok` is the answer of the update partner, if the call asks it. */
  datatype Event = Admin(req: Status, ok: bool) | Parent(word: Status, ok: bool) | Store(active: bool)

  /** A row with its parent: `wanted` by the administrator, parent `up`. `ahead`: active was
      committed while the parent was down, or the update that should have taken the row down
      failed, and the parent has not spoken since. `behind`: the update that should have
      brought the row up failed when the parent last came up, and none has succeeded since. */
  datatype Sys = Sys(status: Status, wanted: bool, up: bool, ahead: bool, behind: bool)

  function Spec(wanted: bool, up: bool): Status {
    if !wanted then NotInService else if up then Active else NotReady
  }

  predicate Possible(ev: Event) {
    ev.Parent? ==> ParentSends(ev.word)
  }

  /** A request that says nothing about whether the row is wanted. */
  predicate Neutral(req: Status) {
    req == NotReady || req == CreateAndGo
  }

  /** An administrator's request that comes to nothing because its update fails. */
  predicate Fails(req: Status, ok: bool) {
    !ok && (req == Active || req == NotInService || req == Destroy)
  }

  function Settled(up: bool, ok: bool): Env {
    Env(true, true, up, true, ok)
  }

  /** One event that reaches the row. The parent's own status is stored after its children were
      told. Only the status comes from the handler. */
  function Step(x: Sys, ev: Event): Sys {
    match ev
    case Admin(req, ok) =>
      var next := Handle(Port, x.status, req, false, Settled(x.up, ok)).0;
      if Fails(req, ok) then x.(status := next)
      else
        var off := req != Active && !Neutral(req);
        Sys(next, req == Active || (Neutral(req) && x.wanted), x.up, x.ahead && !off, x.behind && Neutral(req))
    case Parent(word, ok) =>
      Sys(Handle(Port, x.status, word, true, Settled(x.up, ok)).0, x.wanted
        && !(word == Destroy && ok), word == Active,
          word != Active && !ok && x.status == Active, word == Active && !ok && x.status == NotReady)
    case Store(active) => Sys(Committed(active), active, x.up, active && !x.up, false)
  }

  function Steps(x: Sys, events: seq<Event>): Sys {
    if events == [] then x else Step(Steps(x, events[..|events| - 1]), events[|events| - 1])
  }

  predicate Refines(x: Sys) {
    && x.status == Spec(x.wanted, (x.up && !x.behind) || x.ahead)
    && (x.ahead ==> x.wanted && !x.up) && (x.behind ==> x.wanted && x.up)
  }

  /** Over every run, whichever updates fail, the status is the two-bit specification, with a
      row that is ahead of its parent taken for one whose parent is up, and a row that is
      behind for one whose parent is down. */
  lemma {:induction false} RefinesTwoBits(x: Sys, events: seq<Event>)
    requires Refines(x) && forall i | 0 <= i < |events| :: Possible(events[i])
    ensures Refines(Steps(x, events))
  {
    if events != [] {
      RefinesTwoBits(x, events[..|events| - 1]);
      assert Possible(events[|events| - 1]);
      StepRefines(Steps(x, events[..|events| - 1]), events[|events| - 1]);
    }
  }

  lemma StepRefines(x: Sys, ev: Event)
    requires Refines(x) && Possible(ev)
    ensures Refines(Step(x, ev))
  {
  }

  /** So an event keeps the plain specification - active iff wanted and the parent up,
      notReady iff wanted and down - exactly when it neither commits active under a parent
      that is down, nor is a word of the parent that the row's update fails to follow. */
  lemma TwoBitsKeptIff(x: Sys, ev: Event)
    requires Refines(x) && !x.ahead && !x.behind && Possible(ev)
    ensures var y := Step(x, ev);
      y.status == Spec(y.wanted, y.up) <==>
        && !(ev == Store(true) && !x.up)
        && !(ev.Parent? && !ev.ok && x.status == if ev.word == Active then NotReady else Active)
  {
    StepRefines(x, ev);
  }

  /** A SET of active under a parent that is down gives active, where the specification says
      notReady; the parent's next word puts it right if its update succeeds. */
  lemma CommitRunsAhead(x: Sys, word: Status)
    requires Refines(x) && !x.up && ParentSends(word)
    ensures var y := Step(x, Store(true));
      var z := Step(y, Parent(word, true));
      && y.status == Active != Spec(y.wanted, y.up)
      && z.status == Spec(z.wanted, z.up)
  {
  }

  /** After any run, a parent that goes down and comes back leaves the row as it was if and only
      if the row was not behind, and then it comes up. */
  lemma {:induction false} FlapIsIdentity(x: Sys, events: seq<Event>)
    requires Refines(x) && forall i | 0 <= i < |events| :: Possible(events[i])
    ensures var y := Steps(x, events);
      var flapped := Step(Step(y, Parent(NotInService, true)), Parent(Active, true));
      && (y.up ==> (flapped == y <==> !y.behind))
      && (y.up && y.behind ==> flapped == y.(status := Active, behind := false))
  {
    RefinesTwoBits(x, events);
  }

  // ---- A VIP has two parents: its component and its mapping to a PIP -------------------------------

  /** The mapping's handler tells the VIP; a commit of the mapping's status does not. `ok` is
      the answer of the VIP's update partner, if the call asks it. */
  datatype VipEvent =
    | VipAdmin(req: Status, ok: bool)
    | VipStore(active: bool)
    | Component(word: Status, ok: bool)
    | Mapping(up: bool, ok: bool)
    | MappingStore(up: bool)

  /** `late`: the mapping came up after the VIP was last brought up or told of its component,
      or the update for the component's coming up failed. `ahead`: active was committed, or
      the mapping withdrawn, behind the handler's back, or an update to take the VIP down
      failed, and nobody has taken it down since. */
  datatype VipSys = VipSys(status: Status, wanted: bool, up: bool, mapped: bool, late: bool, ahead: bool)

  function VipEnv(x: VipSys, ok: bool): Env {
    Env(true, true, x.up, x.mapped, ok)
  }

  /** Everything a VIP needs besides being wanted, and in its order. */
  predicate Fit(x: VipSys) {
    x.up && x.mapped && !x.late
  }

  /** One event that reaches the VIP. The mapping's handler tells the VIP before it stores its
      own new status, so the VIP still sees the old one. Which updates fail is
      VipUpdate's SucceedsIff. */
  function VipStep(x: VipSys, ev: VipEvent): VipSys {
    match ev
    case VipAdmin(req, ok) =>
      var next := Handle(Vip, x.status, req, false, VipEnv(x, ok)).0;
      if Fails(req, ok) then x.(status := next)
      else x.(status := next,
              wanted := req == Active || (Neutral(req) && x.wanted),
              late := x.late && req != Active,
              ahead := x.ahead && (req == Active || Neutral(req)))
    case VipStore(active) => x.(status := Committed(active), wanted := active, ahead := active)
    case Component(word, ok) =>
      x.(status := Handle(Vip, x.status, word, true, VipEnv(x, ok)).0,
         wanted := x.wanted && !(word == Destroy && ok), up := word == Active,
         late := if word == Active then x.status == NotReady && !ok else x.late,
         ahead := if word == Active then x.ahead else x.status == Active && !ok)
    case Mapping(up, ok) =>
      if up == x.mapped then x
      else x.(status := Handle(Vip, x.status, if up then Active else NotInService, true, VipEnv(x, ok)).0,
              mapped := up, late := up, ahead := if up then x.ahead else x.status == Active && !ok)
    case MappingStore(up) =>
      if up == x.mapped then x
      else x.(mapped := up, late := up, ahead := x.ahead || (x.wanted && Fit(x)))
  }

  function VipSteps(x: VipSys, events: seq<VipEvent>): VipSys {
    if events == [] then x else VipStep(VipSteps(x, events[..|events| - 1]), events[|events| - 1])
  }

  /** Whichever updates fail, a VIP is active exactly while it is wanted and either fit - its
      component up, its mapping active, and it was brought up since - or ahead. */
  lemma {:induction false} VipActiveIff(x: VipSys, events: seq<VipEvent>)
    requires x == VipSys(NotInService, false, x.up, x.mapped, false, false)
    requires forall i | 0 <= i < |events| :: events[i].Component? ==> ParentSends(events[i].word)
    ensures VipRefines(VipSteps(x, events))
  {
    if events != [] {
      VipActiveIff(x, events[..|events| - 1]);
      VipStepRefines(VipSteps(x, events[..|events| - 1]), events[|events| - 1]);
    }
  }

  predicate VipRefines(x: VipSys) {
    && Stored(x.status) && (x.wanted <==> x.status != NotInService) && (x.ahead ==> x.wanted)
    && (x.status == Active <==> x.wanted && (Fit(x) || x.ahead))
  }

  lemma VipStepRefines(x: VipSys, ev: VipEvent)
    requires VipRefines(x) && (ev.Component? ==> ParentSends(ev.word))
    ensures VipRefines(VipStep(x, ev))
  {
  }

  /** The mapping that comes up last does not bring its VIP up. */
  lemma MappingDoesNotActivate()
    ensures var x := VipSys(NotInService, false, true, false, false, false);
      var y := VipSteps(x, [VipAdmin(Active, true), Mapping(true, true)]);
      y.wanted && y.up && y.mapped && y.status == NotReady
  {
  }
}
