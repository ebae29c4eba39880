/** Virtual instance ports (VIP) and provider instance ports (PIP) of a backbone bridge: the
    VIP update that stacks a VIP on a PIP, and the attachment of a PIP to the component that
    owns it. Several structures must agree: the interface stack, each PIP's VIP bitmap and
    VIP counter, and the owner of each PIP. */
module Backbone {
  import opened RowStatus
  import opened Sets
  import opened Wrappers

  datatype VipKey = VipKey(component: nat, port: nat)

  /** The part of pOldEntry the update uses. */
  datatype Snapshot = Snapshot(iSid: nat, pip: nat)

  /** `iface` is the interface made for the VIP; its base port holds it while `attached`. */
  datatype Vip = VipRow(chassis: nat, iface: nat, attached: bool, iSid: nat, pip: nat, snapshot: Option<Snapshot>)

  datatype Pip = PipRow(component: nat, pipPort: nat, chassis: nat, vipMap: set<nat>, numVips: nat, status: Status)

  /** A physical port: the component and port it is attached to, zero for none. */
  datatype Phy = Phy(component: nat, port: nat, chassis: nat)

  datatype State = State(
    vips: map<VipKey, Vip>,
    pips: map<nat, Pip>,
    phys: map<nat, Phy>,
    ports: set<VipKey>,            // the base ports
    stack: map<(nat, nat), bool>,  // the interface stack: the rows (higher, lower), active or not
    indexed: set<VipKey>)          // the VIPs in the I-SID index

  datatype Res = Res(s: State, ok: bool)

  /** The answers of the collaborators of one PIP operation. */
  datatype PipAnswers = PipAnswers(
    oldPhy: bool,        // a PIP that is detached finds its physical port
    newPhy: bool,        // ... and one that is bound
    component: bool,     // the row of the component a PIP leaves exists
    remove: bool,        // the base port is removed
    newPort: Option<nat>, // the free port number a new base port gets
    cleanup: bool,       // the new base port is removed after a failure
    iface: bool)         // the interface handler of the PIP's row-status update succeeds

  /** The answers of the collaborators of one VIP update. A lookup short of memory finds
      nothing, whatever the table holds: so there are answers for the PIP that is left, the
      PIP that is joined and the row of the interface stack. */
  datatype VipAnswers = VipAnswers(
    found: bool, memory: bool, target: nat, iSidTaken: bool,
    unstack: bool, oldPip: bool,                            // leaving a PIP
    newPip: bool, rowFound: bool, rowMade: bool, stack: bool, // joining one
    pip: PipAnswers, componentChassis: nat, halOff: bool, base: bool, clears: bool, halOn: bool)

  // ---- PIP attachment ---------------------------------------------------------------------

  /** ieee8021PbbPipTable_detachComponent. */
  function Detach(s: State, i: nat, a: PipAnswers): Res
    requires i in s.pips
  {
    if i !in s.phys || !a.oldPhy then Res(s, false)
    else if s.phys[i].component == 0 then Res(s, true)
    else
      var port := VipKey(s.phys[i].component, s.phys[i].port);
      if !a.component || port.port == 0 || port !in s.ports then Res(s, false)
      else
        var loose := s.(phys := s.phys[i := Phy(0, 0, s.phys[i].chassis)]);
        if !a.remove then Res(loose, false)
        else Res(loose.(ports := s.ports - {port},
          pips := s.pips[i := s.pips[i].(component := 0, pipPort := 0)]), true)
  }

  /** The PIP's owner changes hands first, if it has no VIP and another owner. */
  function Released(s: State, i: nat, component: nat, a: PipAnswers): Res
    requires i in s.pips
  {
    if s.pips[i].numVips == 0 && s.pips[i].component != 0 && s.pips[i].component != component then Detach(s, i, a)
    else Res(s, true)
  }

  /** One call of the PIP's row-status handler; destroying the row detaches it. */
  function PipHandled(s: State, i: nat, req: Status, fromParent: bool, a: PipAnswers): Res
    requires i in s.pips
  {
    var c := Call(req, fromParent, Env(true, true, true, s.pips[i].component != 0, true));
    var asked := Asked(Kind.Pip, s.pips[i].status, c);
    var d := if asked == [Destroy] then Detach(s, i, a) else Res(s, true);
    var (status, ok) := Handle(Kind.Pip, s.pips[i].status, req, fromParent, c.env.(updates := d.ok && a.iface));
    Res(d.s.(pips := d.s.pips[i := d.s.pips[i].(status := status)]), ok)
  }

  lemma NothingToDo(s: State, i: nat, req: Status, fromParent: bool, a: PipAnswers)
    requires i in s.pips && (s.pips[i].status == req || Ignored(s.pips[i].status, req, fromParent))
    ensures PipHandled(s, i, req, fromParent, a) == Res(s, true)
  {
    assert s.pips[i := s.pips[i].(status := s.pips[i].status)] == s.pips;
  }

  /** ieee8021PbbPipTable_attachComponent: release, then bind. */
  function Attach(s: State, i: nat, component: nat, chassis: nat, a: PipAnswers): Res
    requires i in s.pips
  {
    var released := Released(s, i, component, a);
    if !released.ok then released else Bind(released.s, i, component, chassis, a)
  }

  /** A new base port for the PIP's physical port, then the PIP's handler is told. */
  function Bind(s: State, i: nat, component: nat, chassis: nat, a: PipAnswers): Res
    requires i in s.pips
  {
    if i !in s.phys || !a.newPhy || a.newPort == None || VipKey(component, a.newPort.value) in s.ports
      then Res(s, false)
    else
      var port := VipKey(component, a.newPort.value);
      if chassis != 0 && s.phys[i].chassis != 0 && chassis != s.phys[i].chassis then
        Res(if a.cleanup then s else s.(ports := s.ports + {port}), false)
      else
        var h := PipHandled(Joined(s, i, port), i, Active, true, a);
        Res(if h.ok || !a.cleanup then h.s else h.s.(ports := h.s.ports - {port}), h.ok)
  }

  /** The PIP, its physical port and its new base port name each other. */
  function Joined(s: State, i: nat, port: VipKey): State
    requires i in s.pips && i in s.phys
  {
    s.(ports := s.ports + {port}, phys := s.phys[i := Phy(port.component, port.port, s.phys[i].chassis)],
       pips := s.pips[i := s.pips[i].(component := port.component, pipPort := port.port)])
  }

  // ---- The VIP update, step by step -----------------------------------------------------------

  function Set(s: State, k: VipKey, v: Vip): State {
    s.(vips := s.vips[k := v])
  }

  function IfIndex(v: Vip): nat {
    if v.attached then v.iface else 0
  }

  /** The snapshot is taken before a row leaves service; destroying clears the I-SID. */
  function Prepare(s: State, k: VipKey, want: Status, a: VipAnswers): (r: Res)
    requires k in s.vips
    ensures k in r.s.vips
  {
    var v := s.vips[k];
    if !a.found then Res(s, false)
    else if want != NotInService && want != Destroy then Res(s, true)
    else if v.snapshot == None && !a.memory then Res(s, false)
    else
      var w := if v.snapshot == None then v.(snapshot := Some(Snapshot(v.iSid, v.pip))) else v;
      Res(Set(s, k, if want == Destroy then w.(iSid := 0) else w), true)
  }

  /** The I-SID index may take the VIP: its I-SID is the snapshot's, or set and not taken. */
  predicate ISidPasses(v: Vip, a: VipAnswers) {
    (v.snapshot.Some? && v.snapshot.value.iSid == v.iSid) || (v.iSid != 0 && !a.iSidTaken)
  }

  /** The VIP leaves the index under its old I-SID and enters it under the new one. */
  function UpdateISid(s: State, k: VipKey, a: VipAnswers): (r: Res)
    requires k in s.vips
    ensures k in r.s.vips
  {
    var v := s.vips[k];
    if v.snapshot.Some? && v.snapshot.value.iSid == v.iSid then Res(s, true)
    else
      var out := v.snapshot.Some? && v.snapshot.value.iSid != 0;
      var t := s.(indexed := if out then s.indexed - {k} else s.indexed);
      var u := if v.snapshot.Some? then Set(t, k, v.(snapshot := Some(v.snapshot.value.(iSid := 0)))) else t;
      if ISidPasses(v, a) then Res(u.(indexed := u.indexed + {k}), true) else Res(u, false)
  }

  function Placed(v: Vip, target: nat): bool {
    v.snapshot.Some? && v.snapshot.value.pip == target
  }

  /** The VIP leaves the PIP its snapshot names. */
  function Unstack(s: State, k: VipKey, target: nat, a: VipAnswers): (r: Res)
    requires k in s.vips
    ensures k in r.s.vips
  {
    var v := s.vips[k];
    if Placed(v, target) || v.snapshot == None || v.snapshot.value.pip == 0 then Res(s, true)
    else
      var i := v.snapshot.value.pip;
      if IfIndex(v) == 0 || (IfIndex(v), i) !in s.stack || !a.unstack then Res(s, false)
      else
        var pips := if i !in s.pips || !a.oldPip then s.pips else
          var p := s.pips[i];
          s.pips[i := p.(vipMap := p.vipMap - {k.port}, numVips := if p.numVips != 0 then p.numVips - 1 else 0)];
        Res(Set(s.(stack := s.stack - {(IfIndex(v), i)}, pips := pips), k,
          v.(snapshot := Some(v.snapshot.value.(pip := 0)))), true)
  }

  predicate SameChassis(p: Pip, v: Vip) {
    p.chassis == 0 || p.chassis == v.chassis
  }

  /** The PIP may take this VIP: it is free, or it is the same component's and chassis'. */
  predicate Admits(p: Pip, k: VipKey, v: Vip) {
    (p.component == 0 || p.component == k.component) && SameChassis(p, v)
  }

  /** The PIP is attached if it is free. */
  function Own(s: State, k: VipKey, target: nat, a: VipAnswers): (r: Res)
    requires k in s.vips
    ensures r.s.vips == s.vips && r.s.stack == s.stack && r.s.pips.Keys == s.pips.Keys && (r.ok ==> target in s.pips)
  {
    if target !in s.pips || !a.newPip || !Admits(s.pips[target], k, s.vips[k]) then Res(s, false)
    else if s.pips[target].component == 0 then Attach(s, target, k.component, a.componentChassis, a.pip)
    else Res(s, true)
  }

  /** ifStackTable_createRegister needs the pair's row, found or made, and brings it up. A row
      made for nothing stays in the table, not active. */
  predicate RowThere(s: State, pair: (nat, nat), a: VipAnswers) {
    if pair in s.stack then a.rowFound else a.rowMade
  }

  /** The VIP is registered on the PIP. */
  function Register(s: State, k: VipKey, target: nat, a: VipAnswers): (r: Res)
    requires k in s.vips && target in s.pips
    ensures k in r.s.vips
  {
    var v, p := s.vips[k], s.pips[target];
    var pair := (IfIndex(v), target);
    if IfIndex(v) == 0 || target == 0 || !RowThere(s, pair, a) then Res(s, false)
    else if !a.stack then Res(if pair in s.stack then s else s.(stack := s.stack[pair := false]), false)
    else Res(Set(s.(stack := s.stack[pair := true],
                    pips := s.pips[target := p.(vipMap := p.vipMap + {k.port},
                      numVips := (p.numVips + 1) % 0x1_0000)]),
                 k, v.(pip := target)), true)
  }

  function Stack(s: State, k: VipKey, target: nat, a: VipAnswers): (r: Res)
    requires k in s.vips
    ensures k in r.s.vips
  {
    if Placed(s.vips[k], target) || target == 0 then Res(s, true)
    else
      var owned := Own(s, k, target, a);
      if !owned.ok then owned
      else Register(owned.s, k, target, a)
  }

  /** Hardware and base port; then the snapshot has served its purpose. */
  function UpdateBase(s: State, k: VipKey, want: Status, a: VipAnswers): Res
    requires k in s.vips
  {
    if want != Active && !a.halOff then Res(s, false)
    else
      var t := if want == Destroy && a.clears then Set(s, k, s.vips[k].(attached := false)) else s;
      if !a.base || (want == Active && !a.halOn) then Res(t, false)
      else if want == Active || want == Destroy then Res(Set(t, k, t.vips[k].(snapshot := None)), true)
      else Res(t, true)
  }

  function Target(want: Status, a: VipAnswers): nat {
    if want == Destroy then 0 else a.target
  }

  /** Everything between the preparation and the base port; skipped on the way out of service. */
  function UpdateLocal(s: State, k: VipKey, want: Status, a: VipAnswers): (r: Res)
    requires k in s.vips
    ensures k in r.s.vips
  {
    var r1 := UpdateISid(s, k, a);
    if !r1.ok then r1 else
    var r2 := Unstack(r1.s, k, Target(want, a), a);
    if !r2.ok then r2 else
    Stack(r2.s, k, Target(want, a), a)
  }

  /** ieee8021PbbVipRowStatus_update. */
  function Update(s: State, k: VipKey, want: Status, a: VipAnswers): Res
    requires k in s.vips
  {
    var r0 := Prepare(s, k, want, a);
    if !r0.ok then r0 else
    var r1 := if want == NotInService then r0 else UpdateLocal(r0.s, k, want, a);
    if !r1.ok then r1 else
    UpdateBase(r1.s, k, want, a)
  }

  // ---- The program ------------------------------------------------------------------------------

  class Bridge {
    var vips: map<VipKey, Vip>
    var pips: map<nat, Pip>
    var phys: map<nat, Phy>
    var ports: set<VipKey>
    var stack: map<(nat, nat), bool>
    var indexed: set<VipKey>

    constructor ()
      ensures View() == State(map[], map[], map[], {}, map[], {})
    {
      vips, pips, phys, ports, stack, indexed := map[], map[], map[], {}, map[], {};
    }

    function View(): State
      reads this
    {
      State(vips, pips, phys, ports, stack, indexed)
    }

    method DetachComponent(i: nat, a: PipAnswers) returns (ok: bool)
      requires i in pips
      modifies `phys, `ports, `pips
      ensures Res(View(), ok) == Detach(old(View()), i, a)
    {
      if i !in phys || !a.oldPhy {
        return false;
      }
      var port := VipKey(phys[i].component, phys[i].port);
      if port.component == 0 {
        return true;
      }
      if !a.component || port.port == 0 || port !in ports {
        return false;
      }
      phys := phys[i := Phy(0, 0, phys[i].chassis)];
      if !a.remove {
        return false;
      }
      ports := ports - {port};
      pips := pips[i := pips[i].(component := 0, pipPort := 0)];
      ok := true;
    }

    /** The update partner of the PIP handler: destroying detaches, then the interface is set. */
    method PipUpdate(i: nat, req: Status, a: PipAnswers) returns (ok: bool)
      requires i in pips
      modifies `phys, `ports, `pips
      ensures var d := if req == Destroy then Detach(old(View()), i, a) else Res(old(View()), true);
        View() == d.s && ok == (d.ok && a.iface)
    {
      ok := true;
      if req == Destroy {
        ok := DetachComponent(i, a);
      }
      ok := ok && a.iface;
    }

    method PipHandler(i: nat, req: Status, fromParent: bool, a: PipAnswers) returns (ok: bool)
      requires i in pips
      modifies `phys, `ports, `pips
      ensures Res(View(), ok) == PipHandled(old(View()), i, req, fromParent, a)
    {
      var status := pips[i].status;
      if status == req || Ignored(status, req, fromParent) {
        NothingToDo(View(), i, req, fromParent, a);
        return true;
      }
      match req {
        case Active =>
          var actual := if pips[i].component == 0 then NotReady else Active;
          ok := PipUpdate(i, actual, a);
          status := if ok then actual else status;
        case NotInService =>
          ok := PipUpdate(i, NotInService, a);
          status := if !ok then status else if status == Active && fromParent then NotReady else NotInService;
        case CreateAndGo =>
          ok := false;
        case CreateAndWait =>
          ok, status := true, NotInService;
        case Destroy =>
          ok := PipUpdate(i, Destroy, a);
          status := if ok then NotInService else status;
        case NotReady =>
          ok := true;
      }
      pips := pips[i := pips[i].(status := status)];
      ok := ok || fromParent;
    }

    method AttachComponent(i: nat, component: nat, chassis: nat, a: PipAnswers) returns (ok: bool)
      requires i in pips
      modifies `phys, `ports, `pips
      ensures Res(View(), ok) == Attach(old(View()), i, component, chassis, a)
    {
      if pips[i].numVips == 0 && pips[i].component != 0 && pips[i].component != component {
        ok := DetachComponent(i, a);
        if !ok {
          return;
        }
      }
      ok := BindPort(i, component, chassis, a);
    }

    method BindPort(i: nat, component: nat, chassis: nat, a: PipAnswers) returns (ok: bool)
      requires i in pips
      modifies `phys, `ports, `pips
      ensures Res(View(), ok) == Bind(old(View()), i, component, chassis, a)
    {
      if i !in phys || !a.newPhy || a.newPort == None || VipKey(component, a.newPort.value) in ports {
        return false;
      }
      var port := VipKey(component, a.newPort.value);
      ports := ports + {port};
      if chassis != 0 && phys[i].chassis != 0 && chassis != phys[i].chassis {
        ports := if a.cleanup then ports - {port} else ports;
        return false;
      }
      phys := phys[i := Phy(component, port.port, phys[i].chassis)];
      pips := pips[i := pips[i].(component := component, pipPort := port.port)];
      ok := PipHandler(i, Active, true, a);
      ports := if ok || !a.cleanup then ports else ports - {port};
    }

    method MoveISid(k: VipKey, a: VipAnswers) returns (ok: bool)
      requires k in vips
      modifies `vips, `indexed
      ensures Res(View(), ok) == UpdateISid(old(View()), k, a)
    {
      var snapshot := vips[k].snapshot;
      if snapshot.Some? {
        if snapshot.value.iSid == vips[k].iSid {
          return true;
        }
        if snapshot.value.iSid != 0 {
          indexed := indexed - {k};
        }
        vips := vips[k := vips[k].(snapshot := Some(snapshot.value.(iSid := 0)))];
      }
      if vips[k].iSid == 0 || a.iSidTaken {
        return false;
      }
      indexed := indexed + {k};
      ok := true;
    }

    method LeavePip(k: VipKey, target: nat, a: VipAnswers) returns (ok: bool)
      requires k in vips
      modifies `vips, `pips, `stack
      ensures Res(View(), ok) == Unstack(old(View()), k, target, a)
    {
      var snapshot := vips[k].snapshot;
      if snapshot == None || snapshot.value.pip == target || snapshot.value.pip == 0 {
        return true;
      }
      var i := snapshot.value.pip;
      var higher := IfIndex(vips[k]);
      if higher == 0 || (higher, i) !in stack || !a.unstack {
        return false;
      }
      stack := stack - {(higher, i)};
      if i in pips && a.oldPip {
        pips := pips[i := pips[i].(vipMap := pips[i].vipMap - {k.port})];
        if pips[i].numVips != 0 {
          pips := pips[i := pips[i].(numVips := pips[i].numVips - 1)];
        }
      }
      vips := vips[k := vips[k].(snapshot := Some(snapshot.value.(pip := 0)))];
      ok := true;
    }

    method JoinPip(k: VipKey, target: nat, a: VipAnswers) returns (ok: bool)
      requires k in vips
      modifies `vips, `pips, `phys, `ports, `stack
      ensures Res(View(), ok) == Stack(old(View()), k, target, a)
    {
      if Placed(vips[k], target) || target == 0 {
        return true;
      }
      if target !in pips || !a.newPip || !Admits(pips[target], k, vips[k]) {
        return false;
      }
      if pips[target].component == 0 {
        ok := AttachComponent(target, k.component, a.componentChassis, a.pip);
        if !ok {
          return;
        }
      }
      ok := RegisterVip(k, target, a);
    }

    method RegisterVip(k: VipKey, target: nat, a: VipAnswers) returns (ok: bool)
      requires k in vips && target in pips
      modifies `vips, `pips, `stack
      ensures Res(View(), ok) == Register(old(View()), k, target, a)
    {
      var pair := (IfIndex(vips[k]), target);
      if pair.0 == 0 || target == 0 || !RowThere(View(), pair, a) {
        return false;
      }
      if !a.stack {
        stack := if pair in stack then stack else stack[pair := false];
        return false;
      }
      stack := stack[pair := true];
      pips := pips[target := pips[target].(vipMap := pips[target].vipMap + {k.port},
        numVips := (pips[target].numVips + 1) % 0x1_0000)];
      vips := vips[k := vips[k].(pip := target)];
      ok := true;
    }

    method FinishVip(k: VipKey, want: Status, a: VipAnswers) returns (ok: bool)
      requires k in vips
      modifies `vips
      ensures Res(View(), ok) == UpdateBase(old(View()), k, want, a)
    {
      if want != Active && !a.halOff {
        return false;
      }
      if want == Destroy && a.clears {
        vips := vips[k := vips[k].(attached := false)];
      }
      if !a.base {
        return false;
      }
      if want == Active && !a.halOn {
        return false;
      }
      if want == Active || want == Destroy {
        vips := vips[k := vips[k].(snapshot := None)];
      }
      ok := true;
    }

    method TakeSnapshot(k: VipKey, want: Status, a: VipAnswers) returns (ok: bool)
      requires k in vips
      modifies `vips
      ensures Res(View(), ok) == Prepare(old(View()), k, want, a)
    {
      if !a.found {
        return false;
      }
      if want == NotInService || want == Destroy {
        if vips[k].snapshot == None {
          if !a.memory {
            return false;
          }
          vips := vips[k := vips[k].(snapshot := Some(Snapshot(vips[k].iSid, vips[k].pip)))];
        }
        if want == Destroy {
          vips := vips[k := vips[k].(iSid := 0)];
        }
      }
      assert vips[k := vips[k]] == vips;
      ok := true;
    }

    method LocalUpdate(k: VipKey, want: Status, a: VipAnswers) returns (ok: bool)
      requires k in vips
      modifies this
      ensures Res(View(), ok) == UpdateLocal(old(View()), k, want, a)
    {
      ok := MoveISid(k, a);
      if !ok {
        return;
      }
      ok := LeavePip(k, Target(want, a), a);
      if !ok {
        return;
      }
      ok := JoinPip(k, Target(want, a), a);
    }

    method VipUpdate(k: VipKey, want: Status, a: VipAnswers) returns (ok: bool)
      requires k in vips
      modifies this
      ensures Res(View(), ok) == Update(old(View()), k, want, a)
    {
      ok := TakeSnapshot(k, want, a);
      if !ok {
        return;
      }
      if want != NotInService {
        ok := LocalUpdate(k, want, a);
        if !ok {
          return;
        }
      }
      ok := FinishVip(k, want, a);
    }
  }

  // ---- The structures agree -------------------------------------------------------------------

  /** The VIP's row on the PIP is in the interface stack and active. */
  predicate Stacked(s: State, k: VipKey, i: nat) {
    k in s.vips && Live(s.stack, s.vips[k].iface, i)
  }

  predicate Live(stack: map<(nat, nat), bool>, higher: nat, lower: nat) {
    (higher, lower) in stack && stack[(higher, lower)]
  }

  predicate Numbered(k: VipKey, v: Vip) {
    k.component != 0 && 1 <= k.port <= 4096 && v.iface != 0
  }

  /** Every VIP has its own interface, and a port number a component can have. */
  predicate WellFormed(s: State) {
    && (forall k | k in s.vips :: Numbered(k, s.vips[k]))
    && (forall k, l | k in s.vips && l in s.vips && s.vips[k].iface == s.vips[l].iface :: k == l)
  }

  /** The set bits of a PIP are the ports of the VIPs stacked on it, all of the owner's
      component and the PIP's chassis, and the counter counts the bits. */
  ghost predicate PipAgrees(s: State, i: nat)
    requires i in s.pips
  {
    var p := s.pips[i];
    && (forall k :: Stacked(s, k, i) ==>
      k.component == p.component && k.port in p.vipMap && SameChassis(p, s.vips[k]))
    && (forall n | n in p.vipMap :: Stacked(s, VipKey(p.component, n), i))
    && p.numVips == |p.vipMap|
  }

  ghost predicate Agrees(s: State) {
    && WellFormed(s)
    && (forall i | i in s.pips :: PipAgrees(s, i))
    && (forall k, i :: Stacked(s, k, i) ==> i in s.pips)
  }

  /** What agreement looks at is the same in both. */
  ghost predicate SameShape(s: State, t: State) {
    && (forall k, i :: Stacked(t, k, i) <==> Stacked(s, k, i))
    && t.vips.Keys == s.vips.Keys && t.pips.Keys == s.pips.Keys
    && (forall k | k in s.vips :: SameVip(s.vips[k], t.vips[k]))
    && (forall i | i in s.pips :: SamePip(s.pips[i], t.pips[i]))
  }

  predicate SameVip(v: Vip, w: Vip) {
    w.iface == v.iface && w.chassis == v.chassis
  }

  predicate SamePip(p: Pip, q: Pip) {
    q.component == p.component && q.chassis == p.chassis && q.vipMap == p.vipMap && q.numVips == p.numVips
  }

  lemma SameShapeAgrees(s: State, t: State)
    requires SameShape(s, t) && Agrees(s)
    ensures Agrees(t)
  {
    forall i | i in t.pips ensures PipAgrees(t, i) {
      assert PipAgrees(s, i) && SamePip(s.pips[i], t.pips[i]);
    }
  }

  lemma SameShapeIff(s: State, t: State)
    requires SameShape(s, t) && SameShape(t, s)
    ensures Agrees(s) <==> Agrees(t)
  {
    if Agrees(s) {
      SameShapeAgrees(s, t);
    } else if Agrees(t) {
      SameShapeAgrees(t, s);
    }
  }

  /** The VIPs stacked on a PIP. */
  function VipsOn(s: State, i: nat): (ks: set<VipKey>) {
    set k | k in s.vips && Stacked(s, k, i)
  }

  /** A free PIP carries no VIP: no component is numbered 0. */
  lemma FreePipIsEmpty(s: State, i: nat)
    requires Agrees(s) && i in s.pips && s.pips[i].component == 0
    ensures s.pips[i].vipMap == {} && s.pips[i].numVips == 0 && VipsOn(s, i) == {}
  {
  }

  ghost predicate SameVips(s: State, t: State) {
    t.vips.Keys == s.vips.Keys && (forall k | k in s.vips :: SameVip(s.vips[k], t.vips[k]))
  }

  lemma RemovedAgrees(s: State, t: State, k: VipKey, i: nat)
    requires Agrees(s) && Stacked(s, k, i) && i in s.pips && i in t.pips && SameVips(s, t)
    requires t.stack == s.stack - {(s.vips[k].iface, i)}
    requires t.pips == s.pips[i := s.pips[i].(vipMap := s.pips[i].vipMap - {k.port}, numVips := t.pips[i].numVips)]
    requires t.pips[i].numVips == if s.pips[i].numVips != 0 then s.pips[i].numVips - 1 else 0
    ensures s.pips[i].numVips != 0 && Agrees(t)
  {
    assert PipAgrees(s, i);
    forall l: VipKey, j: nat ensures Stacked(t, l, j) <==> Stacked(s, l, j) && (l, j) != (k, i) {
    }
    forall j | j in t.pips ensures PipAgrees(t, j) {
      assert PipAgrees(s, j);
    }
  }

  lemma AddedAgrees(s: State, t: State, k: VipKey, i: nat)
    requires Agrees(s) && k in s.vips && !Stacked(s, k, i) && i in s.pips && SameVips(s, t)
    requires s.pips[i].component == k.component && SameChassis(s.pips[i], s.vips[k])
    requires t.stack == s.stack[(s.vips[k].iface, i) := true]
    requires t.pips == s.pips[i := s.pips[i].(vipMap := s.pips[i].vipMap + {k.port},
      numVips := s.pips[i].numVips + 1)]
    ensures Agrees(t)
  {
    forall l: VipKey, j: nat ensures Stacked(t, l, j) <==> Stacked(s, l, j) || (l, j) == (k, i) {
    }
    forall j | j in t.pips ensures PipAgrees(t, j) {
      assert PipAgrees(s, j);
      assert j == i && k.port in s.pips[j].vipMap ==> Stacked(s, VipKey(k.component, k.port), j);
    }
  }

  /** A VIP whose row goes while its PIP is not found stays in the bitmap. */
  lemma ForgottenDisagrees(s: State, t: State, k: VipKey, i: nat)
    requires Agrees(s) && Stacked(s, k, i) && i in s.pips && i in t.pips && t.pips[i] == s.pips[i]
      && !Stacked(t, k, i)
    ensures !PipAgrees(t, i)
  {
    assert PipAgrees(s, i);
    assert k == VipKey(s.pips[i].component, k.port);
  }

  /** An idle row that goes takes a bit or a count that is another VIP's. */
  lemma IdleDisagrees(s: State, t: State, k: VipKey, i: nat)
    requires Agrees(s) && k in s.vips && !Stacked(s, k, i) && i in s.pips && i in t.pips && s.pips[i].numVips != 0
    requires forall l :: Stacked(t, l, i) <==> Stacked(s, l, i)
    requires t.pips[i] == s.pips[i].(vipMap := s.pips[i].vipMap - {k.port}, numVips := s.pips[i].numVips - 1)
    ensures !PipAgrees(t, i)
  {
    var p := s.pips[i];
    assert PipAgrees(s, i);
    if k.port in p.vipMap {
      assert Stacked(t, VipKey(p.component, k.port), i);
    } else {
      assert t.pips[i].vipMap == p.vipMap;
    }
  }

  lemma IdleAgrees(s: State, t: State, k: VipKey, i: nat)
    requires Agrees(s) && k in s.vips && !Stacked(s, k, i) && SameVips(s, t)
      && t.stack == s.stack - {(s.vips[k].iface, i)}
    requires || t.pips == s.pips
             || (i in s.pips && s.pips[i].numVips == 0
                 && t.pips == s.pips[i := s.pips[i].(vipMap := s.pips[i].vipMap - {k.port}, numVips := 0)])
    ensures Agrees(t)
  {
    forall l: VipKey, j: nat ensures Stacked(t, l, j) <==> Stacked(s, l, j) {
    }
    if i in s.pips && s.pips[i].numVips == 0 {
      assert PipAgrees(s, i);
      assert s.pips[i].vipMap == {};
    }
    SameShapeAgrees(s, t);
  }

  /** Before the call: the VIP can leave the PIP its snapshot names, if any. */
  predicate CanLeave(s: State, k: VipKey, a: VipAnswers)
    requires k in s.vips
  {
    var v := s.vips[k];
    v.snapshot.Some? && v.snapshot.value.pip != 0 ==>
      (v.iface, v.snapshot.value.pip) in s.stack && v.attached && a.unstack
  }

  /** Before the call: the VIP leaves a PIP that is not found and so keeps bit and count, or
      leaves by an idle row a PIP that counts others. */
  predicate LeavesWrong(s: State, k: VipKey, target: nat, a: VipAnswers)
    requires k in s.vips
  {
    var v := s.vips[k];
    && v.snapshot.Some? && v.snapshot.value.pip != 0 && v.snapshot.value.pip != target && CanLeave(s, k, a)
    && v.snapshot.value.pip in s.pips
    && if Stacked(s, k, v.snapshot.value.pip)
      then !a.oldPip else a.oldPip && s.pips[v.snapshot.value.pip].numVips != 0
  }

  lemma UnstackWrong(s: State, k: VipKey, target: nat, a: VipAnswers)
    requires Agrees(s) && k in s.vips && LeavesWrong(s, k, target, a)
    ensures var r := Unstack(s, k, target, a);
      r.ok && s.vips[k].snapshot.value.pip in r.s.pips && !PipAgrees(r.s, s.vips[k].snapshot.value.pip)
  {
    var i, t := s.vips[k].snapshot.value.pip, Unstack(s, k, target, a).s;
    assert Numbered(k, s.vips[k]);
    if Stacked(s, k, i) {
      ForgottenDisagrees(s, t, k, i);
    } else {
      IdleDisagrees(s, t, k, i);
    }
  }

  /** Leaving a PIP otherwise keeps the agreement. The guard on the decrement hides nothing: a
      PIP that loses a VIP had it counted. */
  lemma UnstackRight(s: State, k: VipKey, target: nat, a: VipAnswers)
    requires Agrees(s) && k in s.vips && !LeavesWrong(s, k, target, a)
    ensures var t := Unstack(s, k, target, a).s;
      Agrees(t) && forall i | i in s.pips && Stacked(s, k, i) && !Stacked(t, k, i) ::
        i in t.pips && s.pips[i].numVips == t.pips[i].numVips + 1
  {
    var v, r := s.vips[k], Unstack(s, k, target, a);
    assert Numbered(k, v);
    if !r.ok || Placed(v, target) || v.snapshot == None || v.snapshot.value.pip == 0 {
      assert r.s == s;
    } else if Stacked(s, k, v.snapshot.value.pip) {
      RemovedAgrees(s, r.s, k, v.snapshot.value.pip);
    } else {
      IdleAgrees(s, r.s, k, v.snapshot.value.pip);
    }
  }

  /** Leaving a PIP keeps the agreement exactly when it does not go wrong in one of the two
      ways; and a VIP that leaves rightly takes one off a counter that is not zero. */
  lemma UnstackAgreesIff(s: State, k: VipKey, target: nat, a: VipAnswers)
    requires Agrees(s) && k in s.vips
    ensures var t := Unstack(s, k, target, a).s;
      && (Agrees(t) <==> !LeavesWrong(s, k, target, a))
      && forall i | i in s.pips && Stacked(s, k, i) && !Stacked(t, k, i) && Agrees(t) ::
           i in t.pips && s.pips[i].numVips == t.pips[i].numVips + 1
  {
    if LeavesWrong(s, k, target, a) {
      UnstackWrong(s, k, target, a);
    } else {
      UnstackRight(s, k, target, a);
    }
  }

  lemma UpTo(n: nat) returns (r: set<nat>)
    ensures |r| == n && forall m :: m in r <==> 1 <= m <= n
  {
    r := {};
    for j := 0 to n
      invariant |r| == j && forall m :: m in r <==> 1 <= m <= j
    {
      r := r + {j + 1};
    }
  }

  /** The counter never exceeds the number of ports of a component. */
  lemma PortsAreFew(s: State, i: nat)
    requires Agrees(s) && i in s.pips
    ensures s.pips[i].numVips <= 4096
  {
    assert PipAgrees(s, i);
    var c := s.pips[i].component;
    var ports := UpTo(4096);
    forall n | n in s.pips[i].vipMap ensures n in ports {
      assert Stacked(s, VipKey(c, n), i);
    }
    SubsetCard(s.pips[i].vipMap, ports);
  }

  /** A PIP that carries no VIP can change hands. */
  lemma FreeAgrees(s: State, t: State, i: nat)
    requires Agrees(s) && i in s.pips && i in t.pips && s.pips[i].numVips == 0 && t.vips == s.vips
      && t.stack == s.stack
    requires t.pips == s.pips[i := t.pips[i]] && t.pips[i].numVips == 0
    requires t.pips[i].vipMap == s.pips[i].vipMap && t.pips[i].chassis == s.pips[i].chassis
    ensures Agrees(t)
  {
    forall l: VipKey, j: nat ensures Stacked(t, l, j) <==> Stacked(s, l, j) {
    }
    forall j | j in t.pips ensures PipAgrees(t, j) {
      assert PipAgrees(s, j);
    }
  }

  /** A PIP that carries a VIP cannot. */
  lemma TakenDisagrees(s: State, t: State, i: nat)
    requires Agrees(s) && i in s.pips && i in t.pips && s.pips[i].numVips != 0 && t.vips == s.vips
      && t.stack == s.stack
    requires t.pips[i].component != s.pips[i].component
    ensures !Agrees(t)
  {
  }

  /** The owner of a PIP can change exactly when the PIP counts no VIP. */
  lemma OwnerMatters(s: State, t: State, i: nat)
    requires Agrees(s) && i in s.pips && i in t.pips && t.vips == s.vips && t.stack == s.stack
    requires t.pips == s.pips[i := t.pips[i]] && t.pips[i].vipMap == s.pips[i].vipMap
    requires t.pips[i].numVips == s.pips[i].numVips && t.pips[i].chassis == s.pips[i].chassis
    ensures Agrees(t) <==> s.pips[i].numVips == 0 || t.pips[i].component == s.pips[i].component
  {
    if t.pips[i].component == s.pips[i].component {
      SameShapeAgrees(s, t);
    } else if s.pips[i].numVips == 0 {
      FreeAgrees(s, t, i);
    } else {
      TakenDisagrees(s, t, i);
    }
  }

  lemma BindChangesOnePip(s: State, i: nat, component: nat, chassis: nat, a: PipAnswers)
    requires i in s.pips
    ensures var r := Bind(s, i, component, chassis, a);
      && r.s.vips == s.vips && r.s.stack == s.stack && i in r.s.pips && r.s.pips == s.pips[i := r.s.pips[i]]
      && r.s.pips[i].vipMap == s.pips[i].vipMap && r.s.pips[i].numVips == s.pips[i].numVips
        && r.s.pips[i].chassis == s.pips[i].chassis
      && (if r.ok then r.s.pips[i].component == component else r.s.pips == s.pips)
  {
  }

  lemma OwnAgrees(s: State, k: VipKey, target: nat, a: VipAnswers)
    requires Agrees(s) && k in s.vips
    ensures Agrees(Own(s, k, target, a).s)
    ensures Own(s, k, target, a).ok ==> var p := Own(s, k, target, a).s.pips[target];
      p.component == k.component && SameChassis(p, s.vips[k])
  {
    if target in s.pips && s.pips[target].component == 0 {
      BindChangesOnePip(s, target, k.component, a.componentChassis, a.pip);
      FreePipIsEmpty(s, target);
      OwnerMatters(s, Attach(s, target, k.component, a.componentChassis, a.pip).s, target);
    }
  }

  lemma DoubledDisagrees(s: State, t: State, k: VipKey, i: nat)
    requires Agrees(s) && Stacked(s, k, i) && i in t.pips
    requires t.pips[i].numVips == s.pips[i].numVips + 1 && t.pips[i].vipMap == s.pips[i].vipMap + {k.port}
    ensures !PipAgrees(t, i)
  {
    assert PipAgrees(s, i);
    assert t.pips[i].vipMap == s.pips[i].vipMap;
  }

  /** Registration counts the VIP once more; that is right exactly when it was not stacked
      there already. */
  lemma RegisterAgreesIff(s: State, k: VipKey, target: nat, a: VipAnswers)
    requires Agrees(s) && k in s.vips && target in s.pips
    requires s.pips[target].component == k.component && SameChassis(s.pips[target], s.vips[k])
    ensures Agrees(Register(s, k, target, a).s) <==>
      !(Stacked(s, k, target) && s.vips[k].attached && target != 0 && a.rowFound && a.stack)
  {
    var r := Register(s, k, target, a);
    assert Numbered(k, s.vips[k]);
    if !r.ok {
      IdleMade(s, r.s, s.vips[k].iface, target);
    } else {
      PortsAreFew(s, target);
      RegisteredIs(s, k, target, a);
      if Stacked(s, k, target) {
        DoubledDisagrees(s, r.s, k, target);
      } else {
        AddedAgrees(s, r.s, k, target);
      }
    }
  }

  lemma RegisteredIs(s: State, k: VipKey, target: nat, a: VipAnswers)
    requires k in s.vips && target in s.pips && s.pips[target].numVips < 0xFFFF && Register(s, k, target, a).ok
    ensures var t, p := Register(s, k, target, a).s, s.pips[target];
      && SameVips(s, t) && t.stack == s.stack[(s.vips[k].iface, target) := true]
      && t.pips == s.pips[target := p.(vipMap := p.vipMap + {k.port}, numVips := p.numVips + 1)]
  {
  }

  /** A row made and not brought up is nothing to anyone. */
  lemma IdleMade(s: State, t: State, higher: nat, lower: nat)
    requires Agrees(s) && t.vips == s.vips && t.pips == s.pips
    requires t.stack == s.stack || ((higher, lower) !in s.stack && t.stack == s.stack[(higher, lower) := false])
    ensures Agrees(t)
  {
    forall l: VipKey, j: nat ensures Stacked(t, l, j) <==> Stacked(s, l, j) {
    }
    SameShapeAgrees(s, t);
  }

  // ---- A VIP update keeps the agreement, or goes wrong in one of three ways ------------------------

  /** Before the call: the VIP asks for a PIP it is already stacked on, and the interface
      stack finds the row and lets the pair pass a second time. */
  predicate StacksTwice(s: State, k: VipKey, target: nat, a: VipAnswers)
    requires k in s.vips
  {
    var v := s.vips[k];
    && !Placed(v, target) && target != 0 && target in s.pips && Stacked(s, k, target)
    && v.attached && a.newPip && a.rowFound && a.stack
  }

  /** The VIP as the update takes it on: out of service it has a snapshot, and for good no
      I-SID. */
  function Prepared(v: Vip, want: Status): Vip {
    var w := if (want == NotInService || want == Destroy) && v.snapshot == None
      then v.(snapshot := Some(Snapshot(v.iSid, v.pip))) else v;
    if want == Destroy then w.(iSid := 0) else w
  }

  /** Before the call: the update comes as far as the VIP's PIPs. */
  predicate ComesToPips(s: State, k: VipKey, want: Status, a: VipAnswers)
    requires k in s.vips
  {
    && a.found && want != NotInService && (want == Destroy && s.vips[k].snapshot == None ==> a.memory)
    && ISidPasses(Prepared(s.vips[k], want), a)
  }

  /** Before the call: the update stacks the VIP twice on a PIP. */
  predicate Doubles(s: State, k: VipKey, want: Status, a: VipAnswers)
    requires k in s.vips
  {
    want != Destroy && ComesToPips(s, k, want, a) && CanLeave(s, k, a) && StacksTwice(s, k, a.target, a)
  }

  /** Before the call: the update has the VIP leave its PIP in a wrong way. */
  predicate Mislays(s: State, k: VipKey, want: Status, a: VipAnswers)
    requires k in s.vips
  {
    ComesToPips(s, k, want, a) && LeavesWrong(Set(s, k, Prepared(s.vips[k], want)), k, Target(want, a), a)
  }

  lemma StackAgreesIff(s: State, k: VipKey, target: nat, a: VipAnswers)
    requires Agrees(s) && k in s.vips
    ensures Agrees(Stack(s, k, target, a).s) <==> !StacksTwice(s, k, target, a)
  {
    if !Placed(s.vips[k], target) && target != 0 {
      OwnAgrees(s, k, target, a);
      if target in s.pips && Stacked(s, k, target) {
        StackedIsOwned(s, k, target, a);
      }
      var owned := Own(s, k, target, a);
      if owned.ok {
        RegisterAgreesIff(owned.s, k, target, a);
      }
    }
  }

  /** A PIP the VIP is stacked on needs no new owner. */
  lemma StackedIsOwned(s: State, k: VipKey, target: nat, a: VipAnswers)
    requires Agrees(s) && Stacked(s, k, target) && target in s.pips
    ensures Own(s, k, target, a) == Res(s, a.newPip)
  {
  }

  /** Joining one PIP is nothing to the others. */
  lemma StackTouchesOne(s: State, k: VipKey, target: nat, a: VipAnswers, i: nat)
    requires k in s.vips && i in s.pips && i != target
    ensures var t := Stack(s, k, target, a).s; i in t.pips && (PipAgrees(t, i) <==> PipAgrees(s, i))
  {
    var t := Stack(s, k, target, a).s;
    OthersKept(s, k, target, a, i);
    assert forall l :: Stacked(t, l, i) <==> Stacked(s, l, i);
  }

  lemma OthersKept(s: State, k: VipKey, target: nat, a: VipAnswers, i: nat)
    requires k in s.vips && i in s.pips && i != target
    ensures var t := Stack(s, k, target, a).s;
      && i in t.pips && t.pips[i] == s.pips[i] && SameVips(s, t)
      && forall h: nat :: Live(t.stack, h, i) <==> Live(s.stack, h, i)
  {
  }

  lemma ISidStepKeeps(s: State, k: VipKey, target: nat, a: VipAnswers)
    requires k in s.vips
    ensures var r := UpdateISid(s, k, a);
      && (r.ok <==> ISidPasses(s.vips[k], a))
      && r.s.vips[k].iface == s.vips[k].iface && SameVips(s, r.s) && r.s.pips == s.pips && r.s.stack == s.stack
      && (CanLeave(r.s, k, a) <==> CanLeave(s, k, a))
      && (LeavesWrong(r.s, k, target, a) <==> LeavesWrong(s, k, target, a))
      && (StacksTwice(r.s, k, target, a) <==> StacksTwice(s, k, target, a))
  {
  }

  lemma LeavingKeeps(s: State, k: VipKey, target: nat, a: VipAnswers)
    requires k in s.vips && s.vips[k].iface != 0
    ensures Unstack(s, k, target, a).ok <==> Placed(s.vips[k], target) || CanLeave(s, k, a)
    ensures Unstack(s, k, target, a).ok ==>
      (StacksTwice(Unstack(s, k, target, a).s, k, target, a) <==> StacksTwice(s, k, target, a))
  {
  }

  lemma LeaveAndStackAgreesIff(s: State, k: VipKey, target: nat, a: VipAnswers)
    requires Agrees(s) && k in s.vips
    ensures var r := Unstack(s, k, target, a);
      Agrees(if r.ok then Stack(r.s, k, target, a).s else r.s) <==>
        !(LeavesWrong(s, k, target, a) || (CanLeave(s, k, a) && StacksTwice(s, k, target, a)))
  {
    assert Numbered(k, s.vips[k]);
    LeavingKeeps(s, k, target, a);
    var r := Unstack(s, k, target, a);
    if LeavesWrong(s, k, target, a) {
      UnstackWrong(s, k, target, a);
      StackTouchesOne(r.s, k, target, a, s.vips[k].snapshot.value.pip);
    } else {
      UnstackRight(s, k, target, a);
      if r.ok {
        StackAgreesIff(r.s, k, target, a);
      }
    }
  }

  lemma UpdateLocalAgreesIff(s: State, k: VipKey, want: Status, a: VipAnswers)
    requires Agrees(s) && k in s.vips
    ensures var target := Target(want, a);
      Agrees(UpdateLocal(s, k, want, a).s) <==>
        !(ISidPasses(s.vips[k], a) &&
          (LeavesWrong(s, k, target, a) || (CanLeave(s, k, a) && StacksTwice(s, k, target, a))))
  {
    var target := Target(want, a);
    var r1 := UpdateISid(s, k, a);
    ISidStepKeeps(s, k, target, a);
    SameShapeAgrees(s, r1.s);
    if r1.ok {
      LeaveAndStackAgreesIff(r1.s, k, target, a);
    }
  }

  lemma PrepareKeeps(s: State, k: VipKey, want: Status, a: VipAnswers)
    requires k in s.vips
    ensures SameShape(s, Prepare(s, k, want, a).s)
    ensures Prepare(s, k, want, a).ok ==> Prepare(s, k, want, a).s == Set(s, k, Prepared(s.vips[k], want))
    ensures want != NotInService ==>
      (Prepare(s, k, want, a).ok <==> a.found && (want == Destroy && s.vips[k].snapshot == None ==> a.memory))
  {
    assert s.vips[k := s.vips[k]] == s.vips;
  }

  /** One VIP update, through every success and failure exit: the stack, the bitmaps, the
      counters and the owners agree afterwards if and only if it did not stack the VIP twice
      on a PIP, and did not have it leave one that was not found or by an idle row. */
  lemma UpdateAgreesIff(s: State, k: VipKey, want: Status, a: VipAnswers)
    requires Agrees(s) && k in s.vips
    ensures Agrees(Update(s, k, want, a).s) <==> !Doubles(s, k, want, a) && !Mislays(s, k, want, a)
  {
    var r0 := Prepare(s, k, want, a);
    PrepareKeeps(s, k, want, a);
    SameShapeAgrees(s, r0.s);
    if r0.ok && want == NotInService {
      FinishAgreesIff(r0, k, want, a);
    } else if r0.ok {
      UpdateLocalAgreesIff(r0.s, k, want, a);
      PreparedAlike(s, k, want, a);
      FinishAgreesIff(UpdateLocal(r0.s, k, want, a), k, want, a);
    }
  }

  lemma FinishAgreesIff(r: Res, k: VipKey, want: Status, a: VipAnswers)
    requires k in r.s.vips
    ensures Agrees((if r.ok then UpdateBase(r.s, k, want, a) else r).s) <==> Agrees(r.s)
  {
    if r.ok {
      BaseKeepsShape(r.s, k, want, a);
      SameShapeIff(r.s, UpdateBase(r.s, k, want, a).s);
    }
  }

  lemma PreparedAlike(s: State, k: VipKey, want: Status, a: VipAnswers)
    requires k in s.vips && want != NotInService
    ensures var p := Set(s, k, Prepared(s.vips[k], want));
      (CanLeave(p, k, a) && StacksTwice(p, k, Target(want, a), a)) <==>
        (want != Destroy && CanLeave(s, k, a) && StacksTwice(s, k, a.target, a))
  {
  }

  lemma BaseKeepsShape(s: State, k: VipKey, want: Status, a: VipAnswers)
    requires k in s.vips
    ensures SameShape(s, UpdateBase(s, k, want, a).s) && SameShape(UpdateBase(s, k, want, a).s, s)
  {
  }

  // ---- The counter, the owner and the attachment ---------------------------------------------------

  lemma Ports(c: nat, ports: set<nat>)
    ensures |set n | n in ports :: VipKey(c, n)| == |ports|
  {
    if ports != {} {
      var n :| n in ports;
      Ports(c, ports - {n});
      assert (set m | m in ports :: VipKey(c, m)) == (set m | m in ports - {n} :: VipKey(c, m)) + {VipKey(c, n)};
    }
  }

  /** While the structures agree, the counter is the number of VIPs stacked on the PIP, and
      at most 4096. */
  lemma CounterCounts(s: State, i: nat)
    requires Agrees(s) && i in s.pips
    ensures s.pips[i].numVips == |VipsOn(s, i)| <= 4096
  {
    var p := s.pips[i];
    PortsAreFew(s, i);
    Ports(p.component, p.vipMap);
    assert PipAgrees(s, i);
    forall k ensures k in VipsOn(s, i) <==> k in set n | n in p.vipMap :: VipKey(p.component, n) {
      assert k in VipsOn(s, i) <==> Stacked(s, k, i);
    }
    assert VipsOn(s, i) == set n | n in p.vipMap :: VipKey(p.component, n);
  }

  predicate SameOwner(s: State, t: State, i: nat)
    requires i in s.pips
  {
    i in t.pips && t.pips[i].component == s.pips[i].component
  }

  lemma LeavingKeepsOwners(s: State, k: VipKey, target: nat, a: VipAnswers, i: nat)
    requires k in s.vips && i in s.pips
    ensures SameOwner(s, Unstack(s, k, target, a).s, i) && k in Unstack(s, k, target, a).s.vips
  {
  }

  lemma StackingKeepsOwners(s: State, k: VipKey, target: nat, a: VipAnswers, i: nat)
    requires k in s.vips && i in s.pips && s.pips[i].component != 0
    ensures SameOwner(s, Stack(s, k, target, a).s, i)
  {
  }

  lemma LocalKeepsOwners(s: State, k: VipKey, want: Status, a: VipAnswers, i: nat)
    requires k in s.vips && i in s.pips && s.pips[i].component != 0
    ensures SameOwner(s, UpdateLocal(s, k, want, a).s, i)
  {
    var r1 := UpdateISid(s, k, a);
    if r1.ok {
      LeavingKeepsOwners(r1.s, k, Target(want, a), a, i);
      var r2 := Unstack(r1.s, k, Target(want, a), a);
      if r2.ok {
        StackingKeepsOwners(r2.s, k, Target(want, a), a, i);
      }
    }
  }

  /** A VIP update, whatever fails, leaves the owner of a PIP that carries a VIP alone. */
  lemma OwnerKept(s: State, k: VipKey, want: Status, a: VipAnswers, l: VipKey, i: nat)
    requires Agrees(s) && k in s.vips && Stacked(s, l, i)
    ensures var t := Update(s, k, want, a).s;
      i in t.pips && t.pips[i].component == s.pips[i].component == l.component
  {
    assert PipAgrees(s, i);
    assert Numbered(l, s.vips[l]);
    var r0 := Prepare(s, k, want, a);
    assert r0.s.pips == s.pips;
    if r0.ok && want != NotInService {
      LocalKeepsOwners(r0.s, k, want, a, i);
    }
  }

  /** Attaching succeeds or fails as a whole, once the PIP has been released: a failure
      leaves the PIP, the physical port and, unless the cleanup fails, the base ports. */
  lemma AttachAtomic(s: State, i: nat, component: nat, chassis: nat, a: PipAnswers)
    requires i in s.pips
    ensures Attach(s, i, component, chassis, a).ok <==>
      Released(s, i, component, a).ok && CanBind(Released(s, i, component, a).s, i, component, chassis, a)
    ensures var r, t := Attach(s, i, component, chassis, a), Released(s, i, component, a).s;
      if r.ok then
        && a.newPort.Some? && i in t.phys && i in r.s.pips && i in r.s.phys
        && var port := VipKey(component, a.newPort.value);
        && port !in t.ports && r.s.ports == t.ports + {port}
        && (r.s.pips[i].component, r.s.pips[i].pipPort) == (r.s.phys[i].component, r.s.phys[i].port)
          == (component, port.port)
      else
        && r.s.pips == t.pips && r.s.phys == t.phys
        && (r.s.ports == t.ports
          || (!a.cleanup && a.newPort.Some? && r.s.ports == t.ports + {VipKey(component, a.newPort.value)}))
  {
  }

  /** Detaching what was just attached gives the state back, but for the PIP's status. */
  lemma DetachUndoesAttach(s: State, i: nat, component: nat, chassis: nat, a: PipAnswers, b: PipAnswers)
    requires i in s.pips && s.pips[i].component == 0 && s.pips[i].pipPort == 0
    requires i in s.phys && s.phys[i] == Phy(0, 0, s.phys[i].chassis)
    requires component != 0 && a.newPort.Some? && a.newPort.value != 0 && Attach(s, i, component, chassis, a).ok
    requires b.oldPhy && b.component && b.remove
    ensures var r := Detach(Attach(s, i, component, chassis, a).s, i, b);
      r.ok && i in r.s.pips && r.s == s.(pips := s.pips[i := s.pips[i].(status := r.s.pips[i].status)])
  {
  }

  /** The PIP's physical port is there and found, there is a free port for a new base port, and
      the chassis do not differ. */
  predicate CanBind(s: State, i: nat, component: nat, chassis: nat, a: PipAnswers) {
    && i in s.phys && a.newPhy && a.newPort.Some? && VipKey(component, a.newPort.value) !in s.ports
    && (chassis == 0 || s.phys[i].chassis == 0 || chassis == s.phys[i].chassis)
  }

  /** Called by itself, attaching takes a PIP away from the component whose VIPs it carries:
      the check of the owner is the VIP update's. */
  lemma AttachTakesOver(s: State, i: nat, component: nat, chassis: nat, a: PipAnswers)
    requires Agrees(s) && i in s.pips && s.pips[i].numVips != 0 && component != s.pips[i].component
    ensures Agrees(Attach(s, i, component, chassis, a).s) <==> !CanBind(s, i, component, chassis, a)
  {
    BindChangesOnePip(s, i, component, chassis, a);
    OwnerMatters(s, Attach(s, i, component, chassis, a).s, i);
  }

  predicate Clears(s: State, i: nat, req: Status, a: PipAnswers)
    requires i in s.pips
  {
    && req == Destroy && s.pips[i].status != Destroy
    && i in s.phys && a.oldPhy && s.phys[i].component != 0 && s.phys[i].port != 0
    && VipKey(s.phys[i].component, s.phys[i].port) in s.ports && a.component && a.remove
  }

  lemma PipHandledChangesOnePip(s: State, i: nat, req: Status, fromParent: bool, a: PipAnswers)
    requires i in s.pips
    ensures var t := PipHandled(s, i, req, fromParent, a).s;
      && t.vips == s.vips && t.stack == s.stack && i in t.pips && t.pips == s.pips[i := t.pips[i]]
      && t.pips[i].vipMap == s.pips[i].vipMap && t.pips[i].numVips == s.pips[i].numVips
        && t.pips[i].chassis == s.pips[i].chassis
      && t.pips[i].component == if Clears(s, i, req, a) then 0 else s.pips[i].component
  {
  }

  /** A call of the PIP's handler keeps the agreement exactly when it does not clear the
      owner of a PIP that still counts VIPs. */
  lemma PipHandledAgreesIff(s: State, i: nat, req: Status, fromParent: bool, a: PipAnswers)
    requires Agrees(s) && i in s.pips
    ensures Agrees(PipHandled(s, i, req, fromParent, a).s) <==>
      !(Clears(s, i, req, a) && s.pips[i].numVips != 0)
  {
    PipHandledChangesOnePip(s, i, req, fromParent, a);
    if s.pips[i].component == 0 {
      FreePipIsEmpty(s, i);
    }
    OwnerMatters(s, PipHandled(s, i, req, fromParent, a).s, i);
  }

  // ---- Runs ------------------------------------------------------------------------------------------

  datatype Event =
    | VipUpdated(k: VipKey, want: Status, vipAnswers: VipAnswers)
    | PipCalled(i: nat, req: Status, fromParent: bool, pipAnswers: PipAnswers)
    | PipStored(i: nat, active: bool)      // a SET of the PIP's row status
    | ISidSet(k: VipKey, iSid: nat)        // a SET of the VIP's I-SID
    | VipPortSet(k: VipKey, iface: nat)    // a SET of the interface of the VIP's base port
    | VipCreated(k: VipKey, chassis: nat, iface: nat)
    | VipRemoved(k: VipKey)
    | PipCreated(i: nat, chassis: nat)
    | PipRemoved(i: nat)
    | Elsewhere(phys: map<nat, Phy>, ports: set<VipKey>)   // other code's physical and base ports

  /** Rows are there to be changed, and not there to be made. */
  predicate Possible(s: State, ev: Event) {
    match ev
    case VipUpdated(k, _, _) => k in s.vips
    case PipCalled(i, _, _, _) => i in s.pips
    case PipStored(i, _) => i in s.pips
    case ISidSet(k, _) => k in s.vips
    case VipPortSet(k, _) => k in s.vips
    case VipCreated(k, _, _) => k !in s.vips
    case VipRemoved(k) => k in s.vips
    case PipCreated(i, _) => i !in s.pips
    case PipRemoved(i) => i in s.pips
    case Elsewhere(_, _) => true
  }

  /** What the agreement needs of an event: interfaces that are not shared and bring no rows of
      their own, no VIP stacked on a PIP that goes or loses its owner or stacked when it goes
      itself, no VIP stacked twice or mislaid. */
  ghost predicate Fits(s: State, ev: Event)
    requires Possible(s, ev)
  {
    match ev
    case VipUpdated(k, want, a) => !Doubles(s, k, want, a) && !Mislays(s, k, want, a)
    case PipCalled(i, req, _, a) => !(Clears(s, i, req, a) && s.pips[i].numVips != 0)
    case VipPortSet(k, iface) =>
      iface != 0 ==>
        && (forall l | l in s.vips && s.vips[l].iface == iface :: l == k)
        && (forall i: nat :: Live(s.stack, iface, i) <==> Live(s.stack, s.vips[k].iface, i))
    case VipCreated(k, _, iface) =>
      && k.component != 0 && 1 <= k.port <= 4096 && iface != 0
      && (forall l | l in s.vips :: s.vips[l].iface != iface) && (forall i: nat :: !Live(s.stack, iface, i))
    case VipRemoved(k) => forall i | i in s.pips :: !Stacked(s, k, i)
    case PipRemoved(i) => s.pips[i].numVips == 0
    case _ => true
  }

  /** A base port without interface keeps its VIP's rows in the stack. */
  function Moved(v: Vip, iface: nat): Vip {
    if iface == 0 then v.(attached := false) else v.(iface := iface, attached := true)
  }

  /** Afterwards the base port holds that interface, and the VIP's rows are those of its own. */
  lemma MovedHolds(v: Vip, iface: nat)
    ensures IfIndex(Moved(v, iface)) == iface
    ensures iface == 0 ==> Moved(v, iface).iface == v.iface
  {
  }

  function Step(s: State, ev: Event): State
    requires Possible(s, ev)
  {
    match ev
    case VipUpdated(k, want, a) => Update(s, k, want, a).s
    case PipCalled(i, req, fromParent, a) => PipHandled(s, i, req, fromParent, a).s
    case PipStored(i, active) => s.(pips := s.pips[i := s.pips[i].(status := Committed(active))])
    case ISidSet(k, iSid) => Set(s, k, s.vips[k].(iSid := iSid))
    case VipPortSet(k, iface) => Set(s, k, Moved(s.vips[k], iface))
    case VipCreated(k, chassis, iface) => s.(vips := s.vips[k := VipRow(chassis, iface, true, 1, 0, None)])
    case VipRemoved(k) => s.(vips := s.vips - {k})
    case PipCreated(i, chassis) => s.(pips := s.pips[i := PipRow(0, 0, chassis, {}, 0, NotInService)])
    case PipRemoved(i) => s.(pips := s.pips - {i})
    case Elsewhere(phys, ports) => s.(phys := phys, ports := ports)
  }

  lemma VipCreatedAgreesIff(s: State, ev: Event)
    requires Agrees(s) && ev.VipCreated? && Possible(s, ev)
    ensures Agrees(Step(s, ev)) <==> Fits(s, ev)
  {
    var t, k := Step(s, ev), ev.k;
    if Fits(s, ev) {
      forall l: VipKey, i: nat ensures Stacked(t, l, i) <==> Stacked(s, l, i) {
        assert l == k ==> !Live(s.stack, ev.iface, i);
      }
      forall i | i in t.pips ensures PipAgrees(t, i) {
        assert PipAgrees(s, i);
      }
    } else if k.component == 0 || k.port == 0 || k.port > 4096 || ev.iface == 0 {
      assert !Numbered(k, t.vips[k]);
    } else if l :| l in s.vips && s.vips[l].iface == ev.iface {
      assert l in t.vips && t.vips[l].iface == t.vips[k].iface && l != k;
    } else {
      var i: nat :| Live(s.stack, ev.iface, i);
      StrayDisagrees(s, t, k, i);
    }
  }

  /** A VIP that is stacked on a PIP that never took it. */
  lemma StrayDisagrees(s: State, t: State, k: VipKey, i: nat)
    requires Agrees(s) && t.pips == s.pips && Stacked(t, k, i) && !Stacked(s, k, i)
    ensures !Agrees(t)
  {
    if i in s.pips {
      assert PipAgrees(s, i);
    }
  }

  lemma VipRemovedAgreesIff(s: State, ev: Event)
    requires Agrees(s) && ev.VipRemoved? && Possible(s, ev)
    ensures Agrees(Step(s, ev)) <==> Fits(s, ev)
  {
    var t := Step(s, ev);
    if Fits(s, ev) {
      forall l: VipKey, i: nat ensures Stacked(t, l, i) <==> Stacked(s, l, i) {
        assert Stacked(s, l, i) ==> i in s.pips;
      }
      forall i | i in t.pips ensures PipAgrees(t, i) {
        assert PipAgrees(s, i);
      }
    } else {
      var i :| i in s.pips && Stacked(s, ev.k, i);
      ForgottenDisagrees(s, t, ev.k, i);
    }
  }

  lemma PortMovedAgrees(s: State, t: State, k: VipKey)
    requires Agrees(s) && k in s.vips && t.pips == s.pips && t.vips.Keys == s.vips.Keys
    requires forall l | l in s.vips && l != k :: t.vips[l] == s.vips[l] && t.vips[l].iface != t.vips[k].iface
    requires t.vips[k].chassis == s.vips[k].chassis && t.vips[k].iface != 0
    requires forall l, i :: Stacked(t, l, i) <==> Stacked(s, l, i)
    ensures Agrees(t)
  {
    forall l | l in t.vips ensures Numbered(l, t.vips[l]) {
      assert Numbered(l, s.vips[l]);
    }
    forall i | i in t.pips ensures PipAgrees(t, i) {
      assert PipAgrees(s, i);
    }
  }

  lemma VipPortSetAgreesIff(s: State, ev: Event)
    requires Agrees(s) && ev.VipPortSet? && Possible(s, ev)
    ensures Agrees(Step(s, ev)) <==> Fits(s, ev)
  {
    var t, k := Step(s, ev), ev.k;
    if ev.iface == 0 {
      SameShapeAgrees(s, t);
    } else if l :| l in s.vips && s.vips[l].iface == ev.iface && l != k {
      assert t.vips[l].iface == t.vips[k].iface;
    } else if i: nat :| Live(s.stack, ev.iface, i) != Live(s.stack, s.vips[k].iface, i) {
      if Stacked(s, k, i) {
        ForgottenDisagrees(s, t, k, i);
      } else {
        StrayDisagrees(s, t, k, i);
      }
    } else {
      PortMovedAgrees(s, t, k);
    }
  }

  lemma PipRemovedAgreesIff(s: State, ev: Event)
    requires Agrees(s) && ev.PipRemoved? && Possible(s, ev)
    ensures Agrees(Step(s, ev)) <==> Fits(s, ev)
  {
    var t := Step(s, ev);
    CounterCounts(s, ev.i);
    if Fits(s, ev) {
      assert VipsOn(s, ev.i) == {};
      assert forall k :: Stacked(s, k, ev.i) ==> k in VipsOn(s, ev.i);
      forall k: VipKey, i: nat ensures Stacked(t, k, i) <==> Stacked(s, k, i) {
      }
      forall i | i in t.pips ensures PipAgrees(t, i) {
        assert PipAgrees(s, i);
      }
    } else {
      var k :| k in VipsOn(s, ev.i);
      assert Stacked(t, k, ev.i);
    }
  }

  lemma PipCreatedAgrees(s: State, ev: Event)
    requires Agrees(s) && ev.PipCreated? && Possible(s, ev)
    ensures Agrees(Step(s, ev))
  {
    var t := Step(s, ev);
    forall k: VipKey, i: nat ensures Stacked(t, k, i) <==> Stacked(s, k, i) {
    }
    forall i | i in t.pips ensures PipAgrees(t, i) {
      if i in s.pips {
        assert PipAgrees(s, i);
      } else {
        assert forall k :: !Stacked(s, k, i);
      }
    }
  }

  lemma QuietAgrees(s: State, ev: Event)
    requires Agrees(s) && (ev.PipStored? || ev.ISidSet? || ev.Elsewhere?) && Possible(s, ev)
    ensures Agrees(Step(s, ev))
  {
    SameShapeAgrees(s, Step(s, ev));
  }

  /** An event keeps the agreement if and only if it fits. */
  lemma StepAgreesIff(s: State, ev: Event)
    requires Agrees(s) && Possible(s, ev)
    ensures Agrees(Step(s, ev)) <==> Fits(s, ev)
  {
    match ev
    case VipUpdated(k, want, a) => UpdateAgreesIff(s, k, want, a);
    case PipCalled(i, req, fromParent, a) => PipHandledAgreesIff(s, i, req, fromParent, a);
    case VipPortSet(_, _) => VipPortSetAgreesIff(s, ev);
    case VipCreated(_, _, _) => VipCreatedAgreesIff(s, ev);
    case VipRemoved(_) => VipRemovedAgreesIff(s, ev);
    case PipCreated(_, _) => PipCreatedAgrees(s, ev);
    case PipRemoved(_) => PipRemovedAgreesIff(s, ev);
    case _ => QuietAgrees(s, ev);
  }

  ghost predicate Runs(s: State, events: seq<Event>, t: State)
    decreases events
  {
    if events == [] then t == s
      else Possible(s, events[0]) && Fits(s, events[0]) && Runs(Step(s, events[0]), events[1..], t)
  }

  /** On every run of such events, through every success and failure exit: stack, bitmaps and
      counters agree, each counter is the number of VIPs stacked on its PIP, and at most 4096. */
  lemma {:induction false} RunAgrees(s: State, events: seq<Event>, t: State)
    requires Agrees(s) && Runs(s, events, t)
    ensures Agrees(t) && forall i | i in t.pips :: t.pips[i].numVips == |VipsOn(t, i)| <= 4096
    decreases events
  {
    if events == [] {
      forall i | i in t.pips ensures t.pips[i].numVips == |VipsOn(t, i)| <= 4096 {
        CounterCounts(t, i);
      }
    } else {
      StepAgreesIff(s, events[0]);
      RunAgrees(Step(s, events[0]), events[1..], t);
    }
  }

  // ---- The ways an update goes wrong -----------------------------------------------------------

  /** Every lookup and call succeeds; the VIP's mapping names this PIP, or none. */
  function Answers(target: nat): VipAnswers {
    var pip := PipAnswers(true, true, true, true, None, true, true);
    VipAnswers(true, true, target, false, true, true, true, true, true, true, pip, 0, true, true, false, true)
  }

  const LONE := VipKey(1, 1)

  function Lone(pip: nat, snapshot: Option<Snapshot>): map<VipKey, Vip> {
    map[LONE := VipRow(0, 10, true, 5, pip, snapshot)]
  }

  function TwoPips(on100: nat, on200: nat): map<nat, Pip> {
    map[100 := PipRow(1, 7, 0, if on100 == 0 then {} else {1}, on100, Active),
        200 := PipRow(1, 8, 0, if on200 == 0 then {} else {1}, on200, Active)]
  }

  lemma LeaveService(s: State)
    requires s.vips == Lone(100, None)
    ensures Update(s, LONE, NotInService, Answers(100)) == Res(s.(vips := Lone(100, Some(Snapshot(5, 100)))), true)
  {
  }

  /** The VIP of PIP 100 has left it and is mapped to PIP 200. */
  predicate Between(s: State) {
    s.vips == Lone(100, Some(Snapshot(5, 0))) && s.pips == TwoPips(0, 0) && s.stack == map[]
  }

  lemma MoveLeaves(s: State)
    requires s.vips == Lone(100, Some(Snapshot(5, 100))) && s.pips == TwoPips(1, 0)
      && s.stack == map[(10, 100) := true]
    ensures var r := Unstack(s, LONE, 200, Answers(200));
      r.ok && Between(r.s) && r.s == s.(vips := r.s.vips, pips := r.s.pips, stack := map[])
  {
    var r := Unstack(s, LONE, 200, Answers(200));
    assert {1} - {1} == {};
    assert r.s.vips == Lone(100, Some(Snapshot(5, 0)));
    assert r.s.pips == TwoPips(0, 0);
    assert r.s.stack == map[];
  }

  lemma MoveJoins(s: State)
    requires Between(s)
    ensures Stack(s, LONE, 200, Answers(200)) ==
      Res(s.(vips := Lone(200, Some(Snapshot(5, 0))), pips := TwoPips(0, 1), stack := map[(10, 200) := true]), true)
  {
    assert Own(s, LONE, 200, Answers(200)) == Res(s, true);
    var r := Register(s, LONE, 200, Answers(200));
    assert r.s.vips == Lone(200, Some(Snapshot(5, 0)));
    assert {} + {1} == {1};
    assert r.s.pips == TwoPips(0, 1);
    assert r.s.stack == map[(10, 200) := true];
  }

  lemma MoveWhileDown(s: State)
    requires s.vips == Lone(100, Some(Snapshot(5, 100))) && s.pips == TwoPips(1, 0)
      && s.stack == map[(10, 100) := true]
    ensures Update(s, LONE, NotReady, Answers(200)) ==
      Res(s.(vips := Lone(200, Some(Snapshot(5, 0))), pips := TwoPips(0, 1), stack := map[(10, 200) := true]), true)
  {
    assert UpdateISid(s, LONE, Answers(200)) == Res(s, true);
    MoveLeaves(s);
    MoveJoins(Unstack(s, LONE, 200, Answers(200)).s);
  }

  lemma ComeUpAgain(s: State)
    requires s.vips == Lone(200, Some(Snapshot(5, 0))) && s.pips == TwoPips(0, 1) && s.stack == map[(10, 200) := true]
    ensures Update(s, LONE, Active, Answers(200)) == Res(s.(vips := Lone(200, None), pips := TwoPips(0, 2)), true)
  {
    assert UpdateISid(s, LONE, Answers(200)) == Res(s, true);
    assert Unstack(s, LONE, 200, Answers(200)) == Res(s, true);
    assert Own(s, LONE, 200, Answers(200)) == Res(s, true);
    var r := Update(s, LONE, Active, Answers(200));
    assert r.s.vips == Lone(200, None);
    assert r.s.stack == s.stack;
    assert r.s.pips[200].vipMap == {1};
    assert r.s.pips == TwoPips(0, 2);
  }

  /** A VIP in service on PIP 100 is taken out of service, mapped to PIP 200, asked for again
      while its component is down, and brought up with the component: PIP 200 counts it twice. */
  lemma RemapCountsTwice(s: State)
    requires s.vips == Lone(100, None) && s.pips == TwoPips(1, 0) && s.stack == map[(10, 100) := true]
    ensures Agrees(s)
    ensures
      var s1 := Update(s, LONE, NotInService, Answers(100));
      LONE in s1.s.vips &&
      var s2 := Update(s1.s, LONE, NotReady, Answers(200));
      LONE in s2.s.vips &&
      var s3 := Update(s2.s, LONE, Active, Answers(200));
      s1.ok && s2.ok && s3.ok && s3.s.stack == map[(10, 200) := true] && s3.s.pips == TwoPips(0, 2) && !Agrees(s3.s)
  {
    assert Agrees(s) by {
      assert Stacked(s, LONE, 100);
      assert PipAgrees(s, 100) && PipAgrees(s, 200);
    }
    LeaveService(s);
    var s1 := s.(vips := Lone(100, Some(Snapshot(5, 100))));
    MoveWhileDown(s1);
    var s2 := s1.(vips := Lone(200, Some(Snapshot(5, 0))), pips := TwoPips(0, 1), stack := map[(10, 200) := true]);
    ComeUpAgain(s2);
    var s3 := s2.(vips := Lone(200, None), pips := TwoPips(0, 2));
    assert !PipAgrees(s3, 200);
  }

  lemma LeaveUnseen(s: State)
    requires s.vips == Lone(100, Some(Snapshot(5, 100))) && s.pips == TwoPips(1, 0)
      && s.stack == map[(10, 100) := true]
    ensures Update(s, LONE, NotReady, Answers(0).(oldPip := false)) ==
      Res(s.(vips := Lone(100, Some(Snapshot(5, 0))), stack := map[]), true)
  {
    var r := Update(s, LONE, NotReady, Answers(0).(oldPip := false));
    assert r.s.vips == Lone(100, Some(Snapshot(5, 0)));
    assert r.s.stack == map[];
  }

  /** The VIP's PIP is not found when the VIP leaves it: the update succeeds, and the PIP goes
      on counting a VIP that is stacked nowhere. */
  lemma ForgottenVip(s: State)
    requires s.vips == Lone(100, Some(Snapshot(5, 100))) && s.pips == TwoPips(1, 0)
      && s.stack == map[(10, 100) := true]
    ensures var r := Update(s, LONE, NotReady, Answers(0).(oldPip := false));
      Agrees(s) && r.ok && r.s.stack == map[] && r.s.pips == TwoPips(1, 0) && !Agrees(r.s)
  {
    assert Agrees(s) by {
      assert Stacked(s, LONE, 100);
      assert PipAgrees(s, 100) && PipAgrees(s, 200);
    }
    LeaveUnseen(s);
    ForgottenDisagrees(s, Update(s, LONE, NotReady, Answers(0).(oldPip := false)).s, LONE, 100);
  }

  function OtherPip(counts: nat): map<nat, Pip> {
    map[100 := PipRow(1, 7, 0, {2}, counts, Active)]
  }

  function LoneAndOther(snapshot: Snapshot): map<VipKey, Vip> {
    Lone(100, Some(snapshot))[VipKey(1, 2) := VipRow(0, 11, true, 6, 100, None)]
  }

  lemma LeaveByIdleRow(s: State)
    requires s.vips == LoneAndOther(Snapshot(5, 100)) && s.pips == OtherPip(1)
    requires s.stack == map[(10, 100) := false, (11, 100) := true]
    ensures Update(s, LONE, NotReady, Answers(0)) ==
      Res(s.(vips := LoneAndOther(Snapshot(5, 0)), pips := OtherPip(0), stack := map[(11, 100) := true]), true)
  {
    assert UpdateISid(s, LONE, Answers(0)) == Res(s, true);
    assert {2} - {1} == {2};
    var r := Update(s, LONE, NotReady, Answers(0));
    assert r == Unstack(s, LONE, 0, Answers(0));
    assert r.s.vips == LoneAndOther(Snapshot(5, 0));
    assert r.s.pips == OtherPip(0);
    assert r.s.stack == map[(11, 100) := true];
  }

  /** A VIP leaves by a row that never came up, on a PIP that counts another VIP: the other
      one's count goes. */
  lemma IdleRowMiscounts(s: State)
    requires s.vips == LoneAndOther(Snapshot(5, 100)) && s.pips == OtherPip(1)
    requires s.stack == map[(10, 100) := false, (11, 100) := true]
    ensures var r := Update(s, LONE, NotReady, Answers(0));
      Agrees(s) && r.ok && r.s.stack == map[(11, 100) := true] && r.s.pips == OtherPip(0) && !Agrees(r.s)
  {
    assert Agrees(s) by {
      assert Stacked(s, VipKey(1, 2), 100);
      assert PipAgrees(s, 100);
    }
    LeaveByIdleRow(s);
    assert !PipAgrees(Update(s, LONE, NotReady, Answers(0)).s, 100);
  }

  // ---- The I-SID index ------------------------------------------------------------------------------

  /** Another VIP of this chassis and I-SID is in the index; or this one is, and an update
      would not take it out first. */
  predicate ISidHeld(s: State, k: VipKey)
    requires k in s.vips
  {
    var v := s.vips[k];
    exists l :: l in s.indexed && l in s.vips && s.vips[l].chassis == v.chassis && s.vips[l].iSid == v.iSid
                && (l == k ==> v.snapshot == None || v.snapshot.value.iSid == 0)
  }

  /** The index lookup is not short of memory, and finds a VIP that is there. */
  predicate Truthful(s: State, k: VipKey, a: VipAnswers)
    requires k in s.vips
  {
    a.iSidTaken <==> ISidHeld(s, k)
  }

  /** Which VIPs the index lets come up: those that still have their snapshot's I-SID, and those
      with an I-SID nobody holds. All others fail, whatever the other answers; these succeed
      with some. */
  lemma ComesUpIff(s: State, k: VipKey)
    requires k in s.vips
    ensures var v := s.vips[k];
      (exists a :: Truthful(s, k, a) && Update(s, k, Active, a).ok) <==>
        (v.snapshot.Some? && v.snapshot.value.iSid == v.iSid) || (v.iSid != 0 && !ISidHeld(s, k))
  {
    var v := s.vips[k];
    var held := ISidHeld(s, k);
    var a := Answers(if v.snapshot.Some? then v.snapshot.value.pip else 0).(iSidTaken := held);
    assert Truthful(s, k, a);
    assert Update(s, k, Active, a).ok <==> ISidPasses(v, a) by {
      UpdateStaying(s, k, a);
    }
    forall b | Truthful(s, k, b) && Update(s, k, Active, b).ok
      ensures ISidPasses(v, b)
    {
    }
  }

  lemma UpdateStaying(s: State, k: VipKey, a: VipAnswers)
    requires k in s.vips && a.found && a.base && a.halOn
    requires a.target == if s.vips[k].snapshot.Some? then s.vips[k].snapshot.value.pip else 0
    ensures Update(s, k, Active, a).ok <==> ISidPasses(s.vips[k], a)
  {
  }

  /** A VIP first activated under a component that is down enters the index and keeps no
      snapshot. The next update to active or notReady finds it there and fails, changing
      nothing; only leaving service gives it a snapshot. */
  lemma OwnNodeBlocks(s: State, k: VipKey, a: VipAnswers, want: Status, b: VipAnswers)
    requires k in s.vips && s.vips[k].snapshot == None && Update(s, k, NotReady, a).ok
    requires want == Active || want == NotReady
    ensures var t := Update(s, k, NotReady, a).s;
      && k in t.vips && k in t.indexed && t.vips[k].snapshot == None
      && (Truthful(t, k, b) ==> Update(t, k, want, b) == Res(t, false))
  {
  }
}
