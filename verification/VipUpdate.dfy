/** When the operations of Backbone succeed, and what they leave, in terms of the rows, the
    interface stack, the ports and the answers they find. */
module VipUpdate {
  import opened Backbone
  import opened RowStatus
  import opened Wrappers

  // ---- Attaching and detaching a PIP ----------------------------------------------------------

  /** The physical port of the PIP is found, and is loose or has a base port that is there, of a
      component that is there, and goes. */
  predicate Detachable(s: State, i: nat, a: PipAnswers) {
    && i in s.phys && a.oldPhy
    && (s.phys[i].component != 0 ==>
          && a.component && a.remove && s.phys[i].port != 0
          && VipKey(s.phys[i].component, s.phys[i].port) in s.ports)
  }

  /** The state with PIP, physical port and base port apart. */
  function Apart(s: State, i: nat): State
    requires i in s.pips && i in s.phys
  {
    if s.phys[i].component == 0 then s
    else
      s.(ports := s.ports - {VipKey(s.phys[i].component, s.phys[i].port)},
         phys := s.phys[i := Phy(0, 0, s.phys[i].chassis)],
         pips := s.pips[i := s.pips[i].(component := 0, pipPort := 0)])
  }

  /** Detaching fails without a trace, but for a physical port that is loose already when the
      base port does not go. */
  lemma DetachSucceedsIff(s: State, i: nat, a: PipAnswers)
    requires i in s.pips
    ensures var r := Detach(s, i, a);
      && (r.ok <==> Detachable(s, i, a))
      && (if r.ok then r.s == Apart(s, i)
          else if Detachable(s, i, a.(remove := true))
          then r.s == s.(phys := s.phys[i := Phy(0, 0, s.phys[i].chassis)])
          else r.s == s)
  {
  }

  /** A PIP that carries no VIP and has another owner is released first. */
  predicate ChangesHands(p: Pip, component: nat) {
    p.numVips == 0 && p.component != 0 && p.component != component
  }

  /** Attaching succeeds exactly when the PIP can be released, if it has to be, and there is a
      physical port for it, of no other chassis, and a free base port: the one just given up is
      free as well. */
  lemma AttachSucceedsIff(s: State, i: nat, component: nat, chassis: nat, a: PipAnswers)
    requires i in s.pips
    ensures Attach(s, i, component, chassis, a).ok <==>
      && (ChangesHands(s.pips[i], component) ==> Detachable(s, i, a))
      && i in s.phys && a.newPhy && a.newPort.Some?
      && (VipKey(component, a.newPort.value) in s.ports ==>
            && ChangesHands(s.pips[i], component)
            && s.phys[i].component != 0
              && VipKey(component, a.newPort.value) == VipKey(s.phys[i].component, s.phys[i].port))
      && (chassis == 0 || s.phys[i].chassis == 0 || chassis == s.phys[i].chassis)
  {
    DetachSucceedsIff(s, i, a);
    AttachAtomic(s, i, component, chassis, a);
  }

  /** An attachment that fails after the release leaves everything, but for the new base port
      when that does not go again: it was made for a PIP of another chassis. */
  lemma BindFailureLeaves(s: State, i: nat, component: nat, chassis: nat, a: PipAnswers)
    requires i in s.pips && !Bind(s, i, component, chassis, a).ok
    ensures Bind(s, i, component, chassis, a).s ==
      if i in s.phys && a.newPhy && a.newPort.Some? && VipKey(component, a.newPort.value) !in s.ports && !a.cleanup
      then s.(ports := s.ports + {VipKey(component, a.newPort.value)})
      else s
  {
  }

  // ---- The PIP's handler --------------------------------------------------------------------------

  /** What the PIP's update answers: destroying detaches, and the interface is set. */
  predicate PipHears(s: State, i: nat, req: Status, a: PipAnswers) {
    (req == Destroy ==> Detachable(s, i, a)) && a.iface
  }

  /** The handler of a PIP: the status it stores is the transition of RowStatus, for a row that
      is ready while it has an owner; destroying a row detaches it, and no other request
      touches anything but the status. */
  lemma PipHandledIs(s: State, i: nat, req: Status, fromParent: bool, a: PipAnswers)
    requires i in s.pips && RowStatus.Stored(s.pips[i].status)
    ensures var r := PipHandled(s, i, req, fromParent, a);
      var c := Call(req, fromParent, Env(true, true, true, s.pips[i].component != 0, PipHears(s, i, req, a)));
      && i in r.s.pips && r.s.pips[i].status == Next(Kind.Pip, s.pips[i].status, Called(c))
      && (r.ok <==> Handle(Kind.Pip, s.pips[i].status, req, fromParent, c.env).1)
      && r.s == (if req == Destroy then Detach(s, i, a).s else s).(pips := r.s.pips)
      && r.s.pips == (if req == Destroy then Detach(s, i, a).s else s).pips[i := r.s.pips[i]]
  {
    DetachSucceedsIff(s, i, a);
  }

  /** From each stored status, for each request: the status the PIP's handler stores, and its
      answer. */
  lemma PipStatusIs(s: State, i: nat, req: Status, fromParent: bool, a: PipAnswers)
    requires i in s.pips && RowStatus.Stored(s.pips[i].status)
    ensures var was, r := s.pips[i].status, PipHandled(s, i, req, fromParent, a);
      i in r.s.pips && (r.s.pips[i].status, r.ok) ==
        if was == req || req == NotReady then (was, true)
        else if fromParent && ((req == Active && was == NotInService)
          || (req == NotInService && was == NotReady)) then
          (was, true)
        else if req == CreateAndGo then (was, fromParent)
        else if req == CreateAndWait then (NotInService, true)
        else if !PipHears(s, i, req, a) then (was, fromParent)
        else if req == Active then (if s.pips[i].component == 0 then NotReady else Active, true)
        else if req == NotInService && fromParent then (NotReady, true)
        else (NotInService, true)
  {
    DetachSucceedsIff(s, i, a);
  }

  // ---- When a VIP update succeeds -----------------------------------------------------------------

  /** The base port is there, and on the way out of service there is a snapshot or memory for
      one. */
  predicate Readies(v: Vip, want: Status, a: VipAnswers) {
    a.found && ((want == NotInService || want == Destroy) && v.snapshot == None ==> a.memory)
  }

  /** The I-SID is the one the VIP is indexed under, or is set and nobody has it. A VIP to be
      destroyed has none from here on: it passes if it was under none. */
  predicate ISidSettles(v: Vip, want: Status, a: VipAnswers) {
    if want == Destroy then (if v.snapshot.Some? then v.snapshot.value.iSid else v.iSid) == 0
    else (v.snapshot.Some? && v.snapshot.value.iSid == v.iSid) || (v.iSid != 0 && !a.iSidTaken)
  }

  /** The PIP the VIP is to be on: the active mapping's, or none. */
  function Goal(want: Status, a: VipAnswers): nat {
    if want == Destroy then 0 else a.target
  }

  /** The PIP the update takes the VIP to be on, if it takes it to be anywhere: a VIP in service
      that is not destroyed has no snapshot to say so. */
  function Home(v: Vip, want: Status): Option<nat> {
    if v.snapshot.Some? then Some(v.snapshot.value.pip) else if want == Destroy then Some(v.pip) else None
  }

  predicate Leaves(v: Vip, want: Status, a: VipAnswers) {
    Home(v, want).Some? && Home(v, want).value != 0 && Home(v, want).value != Goal(want, a)
  }

  predicate Joins(v: Vip, want: Status, a: VipAnswers) {
    Goal(want, a) != 0 && Home(v, want) != Some(Goal(want, a))
  }

  /** The base port has the VIP's interface, and the stack the row, which goes. */
  predicate MayLeave(s: State, v: Vip, want: Status, a: VipAnswers) {
    Leaves(v, want, a) ==>
      v.attached && v.iface != 0 && (v.iface, Home(v, want).value) in s.stack && a.unstack
  }

  /** The PIP is found, is of the VIP's chassis if of any, and is the component's own or is free
      and can be attached: there is a physical port, of the component's chassis if of any, and
      a free base port. The pair's row is found or made, and comes up. */
  predicate MayJoin(s: State, k: VipKey, v: Vip, want: Status, a: VipAnswers) {
    Joins(v, want, a) ==>
      var i := Goal(want, a);
      && i in s.pips && a.newPip
      && (s.pips[i].chassis == 0 || s.pips[i].chassis == v.chassis)
      && (if s.pips[i].component == 0 then MayAttach(s, k, i, a) else s.pips[i].component == k.component)
      && v.attached && v.iface != 0
      && (if (v.iface, i) in s.stack then a.rowFound else a.rowMade) && a.stack
  }

  predicate MayAttach(s: State, k: VipKey, i: nat, a: VipAnswers) {
    && i in s.phys && a.pip.newPhy
    && (a.componentChassis == 0 || s.phys[i].chassis == 0 || a.componentChassis == s.phys[i].chassis)
    && a.pip.newPort.Some? && VipKey(k.component, a.pip.newPort.value) !in s.ports
  }

  /** Hardware and base port follow. */
  predicate Follows(want: Status, a: VipAnswers) {
    a.base && if want == Active then a.halOn else a.halOff
  }

  /** Whatever it is asked for, a VIP update succeeds exactly when the base port is there, the
      snapshot can be taken, hardware and base port follow and, unless the VIP just goes out of
      service, its I-SID passes, it may leave the PIP it is on and may join the one it is
      mapped to. */
  lemma SucceedsIff(s: State, k: VipKey, want: Status, a: VipAnswers)
    requires k in s.vips
    ensures var v := s.vips[k];
      Update(s, k, want, a).ok <==>
        && Readies(v, want, a) && Follows(want, a)
        && (want == NotInService || (ISidSettles(v, want, a) && MayLeave(s, v, want, a) && MayJoin(s, k, v, want, a)))
  {
    var r0 := Prepare(s, k, want, a);
    if r0.ok {
      if want != NotInService {
        LocalSucceedsIff(s, k, want, a);
        var r1 := UpdateLocal(r0.s, k, want, a);
        if r1.ok {
          BaseSucceedsIff(r1.s, k, want, a);
        }
      } else {
        BaseSucceedsIff(r0.s, k, want, a);
      }
    }
  }

  lemma BaseSucceedsIff(s: State, k: VipKey, want: Status, a: VipAnswers)
    requires k in s.vips
    ensures UpdateBase(s, k, want, a).ok <==> Follows(want, a)
  {
  }

  lemma StackSucceedsIff(s: State, k: VipKey, target: nat, a: VipAnswers)
    requires k in s.vips && target != 0 && !Placed(s.vips[k], target)
    ensures var v := s.vips[k];
      Stack(s, k, target, a).ok <==>
        && target in s.pips && a.newPip
        && (s.pips[target].chassis == 0 || s.pips[target].chassis == v.chassis)
        && (if s.pips[target].component == 0
          then MayAttach(s, k, target, a) else s.pips[target].component == k.component)
        && v.attached && v.iface != 0
        && (if (v.iface, target) in s.stack then a.rowFound else a.rowMade) && a.stack
  {
    if target in s.pips && s.pips[target].component == 0 {
      AttachSucceedsIff(s, target, k.component, a.componentChassis, a.pip);
    }
  }

  /** The state between the I-SID and the PIPs, as far as the PIPs go. */
  predicate Alike(s: State, t: State, k: VipKey, home: Option<nat>)
    requires k in s.vips
  {
    && k in t.vips
    && t.pips == s.pips && t.phys == s.phys && t.ports == s.ports && t.stack == s.stack
    && (t.vips[k].iface, t.vips[k].attached, t.vips[k].chassis, t.vips[k].pip)
       == (s.vips[k].iface, s.vips[k].attached, s.vips[k].chassis, s.vips[k].pip)
    && (t.vips[k].snapshot.Some? <==> home.Some?)
    && (home.Some? ==> t.vips[k].snapshot.value.pip == home.value)
  }

  lemma ISidStepIs(s: State, k: VipKey, want: Status, a: VipAnswers)
    requires k in s.vips && want != NotInService && Prepare(s, k, want, a).ok
    ensures var r := UpdateISid(Prepare(s, k, want, a).s, k, a);
      && (r.ok <==> ISidSettles(s.vips[k], want, a))
      && Alike(s, r.s, k, Home(s.vips[k], want))
  {
  }

  lemma LeaveSucceedsIff(s: State, t: State, k: VipKey, want: Status, a: VipAnswers)
    requires k in s.vips && Alike(s, t, k, Home(s.vips[k], want))
    ensures var r, v := Unstack(t, k, Goal(want, a), a), s.vips[k];
      && (r.ok <==> MayLeave(s, v, want, a))
      && (r.ok ==> && k in r.s.vips
                   && (Placed(r.s.vips[k], Goal(want, a)) || Goal(want, a) == 0 <==> !Joins(v, want, a))
                   && (Joins(v, want, a) ==> SameFor(s, r.s, k, Goal(want, a))))
  {
  }

  /** Nothing that joining PIP i looks at differs. */
  predicate SameFor(s: State, t: State, k: VipKey, i: nat)
    requires k in s.vips
  {
    && k in t.vips && t.phys == s.phys && t.ports == s.ports
    && (i in t.pips <==> i in s.pips) && (i in s.pips ==> t.pips[i] == s.pips[i])
    && ((s.vips[k].iface, i) in t.stack <==> (s.vips[k].iface, i) in s.stack)
    && (t.vips[k].iface, t.vips[k].attached, t.vips[k].chassis)
       == (s.vips[k].iface, s.vips[k].attached, s.vips[k].chassis)
  }

  lemma LocalSucceedsIff(s: State, k: VipKey, want: Status, a: VipAnswers)
    requires k in s.vips && want != NotInService && Prepare(s, k, want, a).ok
    ensures var v := s.vips[k];
      UpdateLocal(Prepare(s, k, want, a).s, k, want, a).ok <==>
        ISidSettles(v, want, a) && MayLeave(s, v, want, a) && MayJoin(s, k, v, want, a)
  {
    var v, goal := s.vips[k], Goal(want, a);
    ISidStepIs(s, k, want, a);
    var r1 := UpdateISid(Prepare(s, k, want, a).s, k, a);
    if r1.ok {
      LeaveSucceedsIff(s, r1.s, k, want, a);
      var r2 := Unstack(r1.s, k, goal, a);
      if r2.ok && Joins(v, want, a) {
        StackSucceedsIff(r2.s, k, goal, a);
      }
    }
  }

  /** So the first attempt to destroy a VIP that has an I-SID fails whatever the answers: it
      takes the VIP out of the index and then finds that it has no I-SID. For the next attempt
      the I-SID passes. */
  lemma FirstDestroyFails(s: State, k: VipKey, a: VipAnswers)
    requires k in s.vips
    requires (if s.vips[k].snapshot.Some? then s.vips[k].snapshot.value.iSid else s.vips[k].iSid) != 0
    ensures var r := Update(s, k, Destroy, a);
      && !r.ok && k in r.s.vips
      && (Readies(s.vips[k], Destroy, a) ==> k !in r.s.indexed && forall b :: ISidSettles(r.s.vips[k], Destroy, b))
  {
    SucceedsIff(s, k, Destroy, a);
  }

  // ---- What a VIP update that succeeds leaves --------------------------------------------------------

  /** The VIP: destroyed it has no I-SID, and no interface if its base port drops it; on the PIP
      it joined; with its snapshot spent in service or for good, just taken out of service, and
      telling where it is otherwise. */
  function FinalVip(v: Vip, want: Status, a: VipAnswers): Vip {
    VipRow(
      v.chassis, v.iface, v.attached && !(want == Destroy && a.clears),
      if want == Destroy then 0 else v.iSid,
      if want != NotInService && Joins(v, want, a) then a.target else v.pip,
      if want == Active || want == Destroy then None
      else if want == NotInService then Some(if v.snapshot.Some? then v.snapshot.value else Snapshot(v.iSid, v.pip))
      else if v.snapshot == None then None
      else Some(Snapshot(if v.snapshot.value.iSid == v.iSid then v.iSid else 0,
                         if v.snapshot.value.pip == a.target then a.target else 0)))
  }

  function NewPort(a: VipAnswers): nat {
    if a.pip.newPort.Some? then a.pip.newPort.value else 0
  }

  /** A PIP that is joined: the component's, with one VIP more; a free one gets a base port, and
      becomes active if it was notReady and its interface comes up. */
  function JoinedPip(p: Pip, k: VipKey, a: VipAnswers): Pip {
    var free := p.component == 0;
    PipRow(
      k.component, if free then NewPort(a) else p.pipPort, p.chassis, p.vipMap + {k.port}, (p.numVips + 1) % 0x1_0000,
      if free && k.component != 0 && p.status == NotReady && a.pip.iface then Active else p.status)
  }

  function LeftPip(p: Pip, k: VipKey): Pip {
    p.(vipMap := p.vipMap - {k.port}, numVips := if p.numVips == 0 then 0 else p.numVips - 1)
  }

  function FinalPip(p: Pip, i: nat, k: VipKey, v: Vip, want: Status, a: VipAnswers): Pip {
    if want == NotInService then p
    else if Joins(v, want, a) && i == a.target then JoinedPip(p, k, a)
    else if Leaves(v, want, a) && Home(v, want) == Some(i) && a.oldPip then LeftPip(p, k)
    else p
  }

  function FinalStack(stack: map<(nat, nat), bool>, v: Vip, want: Status, a: VipAnswers): map<(nat, nat), bool> {
    if want == NotInService then stack
    else
      var left := if Leaves(v, want, a) then stack - {(v.iface, Home(v, want).value)} else stack;
      if Joins(v, want, a) then left[(v.iface, a.target) := true] else left
  }

  /** The VIP enters the index unless it is there under its I-SID, or goes for good. */
  predicate Enters(v: Vip, want: Status) {
    want != NotInService && want != Destroy && !(v.snapshot.Some? && v.snapshot.value.iSid == v.iSid)
  }

  /** A free PIP is attached. */
  predicate Attaches(s: State, v: Vip, want: Status, a: VipAnswers) {
    want != NotInService && Joins(v, want, a) && a.target in s.pips && s.pips[a.target].component == 0
  }

  /** A VIP update that succeeds leaves these rows, this stack and index, and these ports, and
      no others. */
  lemma SuccessLeaves(s: State, k: VipKey, want: Status, a: VipAnswers)
    requires k in s.vips && Update(s, k, want, a).ok
    ensures var t, v := Update(s, k, want, a).s, s.vips[k];
      && t.vips == s.vips[k := FinalVip(v, want, a)]
      && t.pips == (map i | i in s.pips :: FinalPip(s.pips[i], i, k, v, want, a))
      && t.stack == FinalStack(s.stack, v, want, a)
      && t.indexed == (if Enters(v, want) then s.indexed + {k} else s.indexed)
      && PortsDone(s, t, k, v, want, a)
  {
    if want == NotInService {
      PrepareKeeps(s, k, want, a);
      BaseDoes(Prepare(s, k, want, a).s, k, want, a);
      FinalPips(s, k, want, a);
    } else {
      ThroughBase(s, k, want, a);
      PipsThere(s, k, want, a);
      FinalPips(s, k, want, a);
    }
  }

  lemma PipsThere(s: State, k: VipKey, want: Status, a: VipAnswers)
    requires k in s.vips && Update(s, k, want, a).ok
    ensures want != NotInService && Joins(s.vips[k], want, a) ==> a.target in s.pips
  {
    SucceedsIff(s, k, want, a);
  }

  lemma ThroughBase(s: State, k: VipKey, want: Status, a: VipAnswers)
    requires k in s.vips && want != NotInService && Update(s, k, want, a).ok
    ensures var t, v := Update(s, k, want, a).s, s.vips[k];
      && t.vips == s.vips[k := FinalVip(v, want, a)]
      && t.pips == LocalPips(s.pips, k, v, want, a) && t.stack == FinalStack(s.stack, v, want, a)
      && t.indexed == (if Enters(v, want) then s.indexed + {k} else s.indexed)
      && PortsDone(s, t, k, v, want, a)
  {
    var t := UpdateLocal(Prepare(s, k, want, a).s, k, want, a).s;
    LocalDoes(s, k, want, a);
    BaseDoes(t, k, want, a);
    VipThroughBase(s.vips[k], want, a);
    assert Update(s, k, want, a) == UpdateBase(t, k, want, a);
  }

  lemma VipThroughBase(v: Vip, want: Status, a: VipAnswers)
    requires want != NotInService
    ensures FinalVip(v, want, a) == LocalVip(v, want, a).(
      attached := v.attached && !(want == Destroy && a.clears),
      snapshot := if want == Active || want == Destroy then None else LocalVip(v, want, a).snapshot)
  {
  }

  /** The VIP before hardware and base port follow. */
  function LocalVip(v: Vip, want: Status, a: VipAnswers): Vip {
    var iSid := if want == Destroy then 0 else v.iSid;
    v.(iSid := iSid,
       pip := if Joins(v, want, a) then a.target else v.pip,
       snapshot :=
         if Home(v, want) == None then None
         else Some(Snapshot(
           if v.snapshot.Some? && v.snapshot.value.iSid == iSid then iSid else 0,
           if Leaves(v, want, a) then 0 else Home(v, want).value)))
  }

  lemma LocalDoes(s: State, k: VipKey, want: Status, a: VipAnswers)
    requires k in s.vips && want != NotInService && Prepare(s, k, want, a).ok
    requires UpdateLocal(Prepare(s, k, want, a).s, k, want, a).ok
    ensures var v, t := s.vips[k], UpdateLocal(Prepare(s, k, want, a).s, k, want, a).s;
      && t.vips == s.vips[k := LocalVip(v, want, a)]
      && t.indexed == (if Enters(v, want) then s.indexed + {k} else s.indexed)
      && t.pips == LocalPips(s.pips, k, v, want, a) && t.stack == FinalStack(s.stack, v, want, a)
      && PortsDone(s, t, k, v, want, a)
  {
    var r1 := UpdateISid(Prepare(s, k, want, a).s, k, a);
    ISidStepIs(s, k, want, a);
    PipsDo(s, r1.s, k, want, a);
    PortsDo(s, r1.s, k, want, a);
    LocalRows(s, k, want, a);
  }

  lemma LocalRows(s: State, k: VipKey, want: Status, a: VipAnswers)
    requires k in s.vips && want != NotInService && Prepare(s, k, want, a).ok
    requires UpdateLocal(Prepare(s, k, want, a).s, k, want, a).ok
    ensures var v, t := s.vips[k], UpdateLocal(Prepare(s, k, want, a).s, k, want, a).s;
      && t.vips == s.vips[k := LocalVip(v, want, a)]
      && t.indexed == (if Enters(v, want) then s.indexed + {k} else s.indexed)
      && t.stack == FinalStack(s.stack, v, want, a)
  {
    var r1 := UpdateISid(Prepare(s, k, want, a).s, k, a);
    IndexDoes(s, k, want, a);
    ISidStepIs(s, k, want, a);
    RowsDo(s, r1.s, k, want, a);
  }

  lemma IndexDoes(s: State, k: VipKey, want: Status, a: VipAnswers)
    requires k in s.vips && want != NotInService && Prepare(s, k, want, a).ok
    requires UpdateISid(Prepare(s, k, want, a).s, k, a).ok
    ensures var v, t := s.vips[k], UpdateISid(Prepare(s, k, want, a).s, k, a).s;
      var iSid := if want == Destroy then 0 else v.iSid;
      && t.vips == s.vips[k := v.(iSid := iSid, snapshot :=
           if Home(v, want) == None then None
           else Some(Snapshot(if v.snapshot.Some? && v.snapshot.value.iSid == iSid then iSid else 0,
                              Home(v, want).value)))]
      && t.indexed == (if Enters(v, want) then s.indexed + {k} else s.indexed)
  {
    PrepareKeeps(s, k, want, a);
    ISidDoes(Prepare(s, k, want, a).s, k, a);
  }

  lemma RowsDo(s: State, t: State, k: VipKey, want: Status, a: VipAnswers)
    requires k in s.vips && want != NotInService && Alike(s, t, k, Home(s.vips[k], want))
    requires Unstack(t, k, Goal(want, a), a).ok && Stack(Unstack(t, k, Goal(want, a), a).s, k, Goal(want, a), a).ok
    ensures var u, v := Stack(Unstack(t, k, Goal(want, a), a).s, k, Goal(want, a), a).s, s.vips[k];
      && u.vips == t.vips[k := t.vips[k].(
           pip := if Joins(v, want, a) then a.target else v.pip,
           snapshot := if Leaves(v, want, a) then Some(t.vips[k].snapshot.value.(pip := 0)) else t.vips[k].snapshot)]
      && u.indexed == t.indexed && u.stack == FinalStack(s.stack, v, want, a)
  {
    var v, goal := s.vips[k], Goal(want, a);
    LeaveDoes(t, k, goal, a);
    LeaveSucceedsIff(s, t, k, want, a);
    assert t.vips[k := t.vips[k]] == t.vips;
    if Joins(v, want, a) {
      JoinDoes(Unstack(t, k, goal, a).s, k, goal, a);
    }
  }

  lemma PipsDo(s: State, t: State, k: VipKey, want: Status, a: VipAnswers)
    requires k in s.vips && want != NotInService && Alike(s, t, k, Home(s.vips[k], want))
    requires Unstack(t, k, Goal(want, a), a).ok && Stack(Unstack(t, k, Goal(want, a), a).s, k, Goal(want, a), a).ok
    ensures var u, v := Stack(Unstack(t, k, Goal(want, a), a).s, k, Goal(want, a), a).s, s.vips[k];
      u.pips == LocalPips(s.pips, k, v, want, a) && (Joins(v, want, a) ==> a.target in s.pips)
  {
    var v, goal := s.vips[k], Goal(want, a);
    LeaveDoes(t, k, goal, a);
    LeaveSucceedsIff(s, t, k, want, a);
    if Joins(v, want, a) {
      JoinDoes(Unstack(t, k, goal, a).s, k, goal, a);
    }
  }

  predicate PortsDone(s: State, t: State, k: VipKey, v: Vip, want: Status, a: VipAnswers) {
    if Attaches(s, v, want, a) then
      && a.target in s.phys
      && t.ports == s.ports + {VipKey(k.component, NewPort(a))}
      && t.phys == s.phys[a.target := Phy(k.component, NewPort(a), s.phys[a.target].chassis)]
    else t.ports == s.ports && t.phys == s.phys
  }

  lemma PortsDo(s: State, t: State, k: VipKey, want: Status, a: VipAnswers)
    requires k in s.vips && want != NotInService && Alike(s, t, k, Home(s.vips[k], want))
    requires Unstack(t, k, Goal(want, a), a).ok && Stack(Unstack(t, k, Goal(want, a), a).s, k, Goal(want, a), a).ok
    ensures PortsDone(s, Stack(Unstack(t, k, Goal(want, a), a).s, k, Goal(want, a), a).s, k, s.vips[k], want, a)
  {
    var v, goal := s.vips[k], Goal(want, a);
    LeaveDoes(t, k, goal, a);
    LeaveSucceedsIff(s, t, k, want, a);
    if Joins(v, want, a) {
      JoinDoes(Unstack(t, k, goal, a).s, k, goal, a);
    }
  }

  function LocalPips(pips: map<nat, Pip>, k: VipKey, v: Vip, want: Status, a: VipAnswers): map<nat, Pip> {
    var left :=
      if Leaves(v, want, a) && Home(v, want).value in pips && a.oldPip
      then pips[Home(v, want).value := LeftPip(pips[Home(v, want).value], k)]
      else pips;
    if Joins(v, want, a) && a.target in pips then left[a.target := JoinedPip(left[a.target], k, a)] else left
  }

  lemma FinalPips(s: State, k: VipKey, want: Status, a: VipAnswers)
    requires k in s.vips && (want != NotInService && Joins(s.vips[k], want, a) ==> a.target in s.pips)
    ensures (if want == NotInService then s.pips else LocalPips(s.pips, k, s.vips[k], want, a))
      == map i | i in s.pips :: FinalPip(s.pips[i], i, k, s.vips[k], want, a)
  {
  }

  lemma BaseDoes(s: State, k: VipKey, want: Status, a: VipAnswers)
    requires k in s.vips && UpdateBase(s, k, want, a).ok
    ensures var v := s.vips[k];
      UpdateBase(s, k, want, a).s == Set(s, k,
        v.(attached := v.attached && !(want == Destroy && a.clears),
           snapshot := if want == Active || want == Destroy then None else v.snapshot))
  {
    assert s.vips[k := s.vips[k]] == s.vips;
  }

  /** The step of the I-SID, through its failure as well: under another I-SID the VIP goes out
      of the index if it was in it, and in again if the new one is set and nobody has it. */
  lemma ISidDoes(s: State, k: VipKey, a: VipAnswers)
    requires k in s.vips
    ensures var v, r := s.vips[k], UpdateISid(s, k, a);
      var same := v.snapshot.Some? && v.snapshot.value.iSid == v.iSid;
      && (r.ok <==> same || (v.iSid != 0 && !a.iSidTaken))
      && r.s == Set(s, k,
           v.(snapshot := if v.snapshot.Some? && !same then Some(v.snapshot.value.(iSid := 0)) else v.snapshot))
             .(indexed :=
               if same then s.indexed
               else if r.ok then s.indexed + {k}
               else if v.snapshot.Some? && v.snapshot.value.iSid != 0 then s.indexed - {k}
               else s.indexed)
  {
    assert s.vips[k := s.vips[k]] == s.vips;
    assert s.indexed - {k} + {k} == s.indexed + {k};
  }

  lemma LeaveDoes(s: State, k: VipKey, target: nat, a: VipAnswers)
    requires k in s.vips && Unstack(s, k, target, a).ok
    ensures var v, t := s.vips[k], Unstack(s, k, target, a).s;
      if v.snapshot.Some? && v.snapshot.value.pip != target && v.snapshot.value.pip != 0 then
        var i := v.snapshot.value.pip;
        && t.vips == s.vips[k := v.(snapshot := Some(v.snapshot.value.(pip := 0)))]
        && t.stack == s.stack - {(v.iface, i)}
        && t.pips == (if i in s.pips && a.oldPip then s.pips[i := LeftPip(s.pips[i], k)] else s.pips)
        && (t.phys, t.ports, t.indexed) == (s.phys, s.ports, s.indexed)
      else t == s
  {
  }

  lemma JoinDoes(s: State, k: VipKey, target: nat, a: VipAnswers)
    requires k in s.vips && target != 0 && !Placed(s.vips[k], target) && Stack(s, k, target, a).ok
    ensures var t, v := Stack(s, k, target, a).s, s.vips[k];
      && target in s.pips
      && t.vips == s.vips[k := v.(pip := target)] && t.indexed == s.indexed
      && t.stack == s.stack[(v.iface, target) := true]
      && t.pips == s.pips[target := JoinedPip(s.pips[target], k, a)]
      && (if s.pips[target].component == 0 then
            && target in s.phys
            && t.ports == s.ports + {VipKey(k.component, NewPort(a))}
            && t.phys == s.phys[target := Phy(k.component, NewPort(a), s.phys[target].chassis)]
          else t.ports == s.ports && t.phys == s.phys)
  {
  }

  /** A registration that fails leaves everything, but for a row made for the pair that does not
      come up: it stays, not active. */
  lemma RegisterFailureLeaves(s: State, k: VipKey, target: nat, a: VipAnswers)
    requires k in s.vips && target in s.pips && !Register(s, k, target, a).ok
    ensures var v := s.vips[k];
      Register(s, k, target, a).s ==
        if v.attached && v.iface != 0 && target != 0 && (v.iface, target) !in s.stack && a.rowMade
        then s.(stack := s.stack[(v.iface, target) := false])
        else s
  {
  }

  /** In particular: a VIP that joins a PIP is stacked on it by a live row, is in its bitmap and
      names it, and the PIP is its component's. */
  lemma JoinsAtSuccess(s: State, k: VipKey, want: Status, a: VipAnswers)
    requires k in s.vips && Update(s, k, want, a).ok
    requires want == Active || want == NotReady
    requires a.target != 0 && !(s.vips[k].snapshot.Some? && s.vips[k].snapshot.value.pip == a.target)
    ensures var t := Update(s, k, want, a).s;
      && k in t.vips && t.vips[k].pip == a.target && Stacked(t, k, a.target)
      && a.target in t.pips && k.port in t.pips[a.target].vipMap && t.pips[a.target].component == k.component
  {
    SucceedsIff(s, k, want, a);
    SuccessLeaves(s, k, want, a);
  }

  // ---- From nothing to a VIP in service -------------------------------------------------------------

  /** A bridge with one loose physical port, and a PIP and a VIP just made. */
  function Fresh(k: VipKey, iface: nat, i: nat): State {
    var bare := State(map[], map[], map[i := Phy(0, 0, 0)], {}, map[], {});
    Backbone.Step(Backbone.Step(bare, PipCreated(i, 0)), VipCreated(k, 0, iface))
  }

  lemma FreshIs(k: VipKey, iface: nat, i: nat)
    ensures Fresh(k, iface, i) == State(
      map[k := VipRow(0, iface, true, 1, 0, None)], map[i := PipRow(0, 0, 0, {}, 0, NotInService)],
      map[i := Phy(0, 0, 0)], {}, map[], {})
  {
  }

  /** Every PIP is made free. The first activation of the first VIP mapped to it, when nothing
      fails, attaches it to the VIP's component and stacks the VIP on it. */
  lemma FirstJoin(k: VipKey, iface: nat, i: nat, n: nat)
    requires iface != 0 && i != 0
    ensures var a := Answers(i).(pip := Answers(i).pip.(newPort := Some(n)));
      Update(Fresh(k, iface, i), k, Active, a) == Res(State(
        map[k := VipRow(0, iface, true, 1, i, None)], map[i := PipRow(k.component, n, 0, {k.port}, 1, NotInService)],
        map[i := Phy(k.component, n, 0)], {VipKey(k.component, n)}, map[(iface, i) := true], {k}), true)
  {
    var s, a := Fresh(k, iface, i), Answers(i).(pip := Answers(i).pip.(newPort := Some(n)));
    FreshIs(k, iface, i);
    SucceedsIff(s, k, Active, a);
    SuccessLeaves(s, k, Active, a);
    var t := Update(s, k, Active, a).s;
    assert t.vips == map[k := VipRow(0, iface, true, 1, i, None)];
    assert {} + {k.port} == {k.port};
    assert t.pips == map[i := PipRow(k.component, n, 0, {k.port}, 1, NotInService)];
    assert t.stack == map[(iface, i) := true];
  }
}
