/** Customer backbone ports (CBP). A CBP that is activated without an interface gets one of
    its own, an internal LAN with a physical port, and gives it back when it is destroyed. The
    flag bExternal is false while the interface is the CBP's own. */
module Cbp {
  import opened RowStatus
  import opened Wrappers

  /** Component and port number. */
  type PortKey = (nat, nat)

  /** The CBP row, with the interface its base port holds; zero for none. */
  datatype Cbp = CbpRow(ifIndex: nat, external: bool, status: Status)

  datatype State = State(cbps: map<PortKey, Cbp>, iLans: set<nat>, phys: set<nat>)

  /** The answers of the collaborators of one update. `clears`: the base-port handler, asked
      to destroy, sets the interface of the base port to zero first. */
  datatype Answers = Answers(
    found: bool,          // the base-port row exists
    iLan: Option<nat>,    // the free interface a new internal LAN gets
    iLanUp: bool, iLanCleanup: bool, // the new LAN's status handler; its removal if that fails
    phy: bool,            // a physical port is made
    halOff: bool, base: bool, clears: bool, halOn: bool,
    phyRemoved: bool,     // the physical port is removed
    iLanFound: bool, iLanRemoved: bool) // the internal LAN is looked up and removed

  datatype Res = Res(s: State, ok: bool)

  function Set(s: State, k: PortKey, c: Cbp): State {
    s.(cbps := s.cbps[k := c])
  }

  /** A new internal LAN and its physical port become the CBP's interface. When the physical
      port cannot be made the LAN stays; so does a LAN that did not come up and was not
      removed. */
  function Acquire(s: State, k: PortKey, a: Answers): (r: Res)
    requires k in s.cbps
    ensures k in r.s.cbps
  {
    if a.iLan == None || a.iLan.value == 0 || a.iLan.value in s.iLans then Res(s, false)
    else
      var n := a.iLan.value;
      var t := s.(iLans := s.iLans + {n});
      if !a.iLanUp then Res(if a.iLanCleanup then s else t, false)
      else if !a.phy || n in s.phys then Res(t, false)
      else Res(Set(t.(phys := s.phys + {n}), k, s.cbps[k].(ifIndex := n, external := false)), true)
  }

  /** The physical port goes first, then the internal LAN. A LAN that is not found, because
      it is gone or because the lookup is short of memory, counts as removed. */
  function Release(s: State, k: PortKey, a: Answers): (r: Res)
    requires k in s.cbps
    ensures k in r.s.cbps
  {
    var c := s.cbps[k];
    if c.ifIndex == 0 || c.external then Res(s, true)
    else if c.ifIndex !in s.phys || !a.phyRemoved then Res(s, false)
    else
      var t := s.(phys := s.phys - {c.ifIndex});
      var found := c.ifIndex in s.iLans && a.iLanFound;
      if found && !a.iLanRemoved then Res(t, false)
      else Res(Set(t.(iLans := if found then s.iLans - {c.ifIndex} else s.iLans), k,
        c.(ifIndex := 0, external := true)), true)
  }

  /** Whether an update starts by making an interface. */
  predicate Needs(s: State, k: PortKey, want: Status)
    requires k in s.cbps
  {
    want == Active && s.cbps[k].ifIndex == 0
  }

  /** Hardware, base port and the interface given back. The answer is true whatever fails if
      an interface was just made. */
  function Finish(s: State, k: PortKey, want: Status, made: bool, a: Answers): (r: Res)
    requires k in s.cbps
    ensures k in r.s.cbps
  {
    if want != Active && !a.halOff then Res(s, made)
    else
      var t := if want == Destroy && a.clears then Set(s, k, s.cbps[k].(ifIndex := 0)) else s;
      if !a.base || (want == Active && !a.halOn) then Res(t, made)
      else if want == Destroy then Release(t, k, a)
      else Res(t, true)
  }

  /** ieee8021PbbCbpRowStatus_update. */
  function Update(s: State, k: PortKey, want: Status, a: Answers): (r: Res)
    requires k in s.cbps
    ensures k in r.s.cbps
  {
    if !a.found then Res(s, false)
    else if !Needs(s, k, want) then Finish(s, k, want, false, a)
    else
      var r := Acquire(s, k, a);
      if !r.ok then r else Finish(r.s, k, want, true, a)
  }

  /** A request to the handler, with what the handler finds of the CBP's component. */
  datatype Request = Request(req: Status, fromParent: bool, component: bool, componentActive: bool)

  function ToCall(q: Request): Call {
    Call(q.req, q.fromParent, Env(q.component, true, q.componentActive, true, true))
  }

  /** The status the handler asks its update for, if it gets that far. */
  function AskedFor(s: State, k: PortKey, q: Request): seq<Status>
    requires k in s.cbps
  {
    Asked(Port, s.cbps[k].status, ToCall(q))
  }

  /** ieee8021PbbCbpRowStatus_handler with its update. */
  function Handled(s: State, k: PortKey, q: Request, a: Answers): (r: Res)
    requires k in s.cbps
  {
    var asked := AskedFor(s, k, q);
    var r := if asked == [] then Res(s, true) else Update(s, k, asked[0], a);
    var (status, ok) := Handle(Port, s.cbps[k].status, q.req, q.fromParent, ToCall(q).env.(updates := r.ok));
    Res(Set(r.s, k, r.s.cbps[k].(status := status)), ok)
  }

  // ---- The program ---------------------------------------------------------------------------

  class CbpTable {
    var cbps: map<PortKey, Cbp>
    var iLans: set<nat>
    var phys: set<nat>

    constructor ()
      ensures View() == State(map[], {}, {})
    {
      cbps, iLans, phys := map[], {}, {};
    }

    function View(): State
      reads this
    {
      State(cbps, iLans, phys)
    }

    /** A new row, unless memory is short or the key is taken: no interface of its own. */
    method CreateEntry(k: PortKey, ifIndex: nat, mem: bool) returns (ok: bool)
      modifies `cbps
      ensures ok == (mem && k !in old(cbps))
      ensures cbps == if ok then old(cbps)[k := CbpRow(ifIndex, true, NotInService)] else old(cbps)
    {
      ok := mem && k !in cbps;
      if ok {
        cbps := cbps[k := CbpRow(ifIndex, true, NotInService)];
      }
    }

    /** COMMIT's assignment to the status of a row, and its removal of one: neither handler nor
        update is called. */
    method CommitStatus(k: PortKey, active: bool)
      requires k in cbps
      modifies `cbps
      ensures View() == Set(old(View()), k, old(cbps)[k].(status := Committed(active)))
    {
      cbps := cbps[k := cbps[k].(status := Committed(active))];
    }

    method RemoveEntry(k: PortKey)
      modifies `cbps
      ensures View() == old(View()).(cbps := old(cbps) - {k})
    {
      if k in cbps {
        cbps := cbps - {k};
      }
    }

    method AcquireInterface(k: PortKey, a: Answers) returns (ok: bool)
      requires k in cbps
      modifies this
      ensures Res(View(), ok) == Acquire(old(View()), k, a)
    {
      if a.iLan == None || a.iLan.value == 0 || a.iLan.value in iLans {
        return false;
      }
      var n := a.iLan.value;
      iLans := iLans + {n};
      if !a.iLanUp {
        iLans := if a.iLanCleanup then iLans - {n} else iLans;
        return false;
      }
      if !a.phy || n in phys {
        return false;
      }
      phys := phys + {n};
      cbps := cbps[k := cbps[k].(ifIndex := n)];
      cbps := cbps[k := cbps[k].(external := false)];
      ok := true;
    }

    method ReleaseInterface(k: PortKey, a: Answers) returns (ok: bool)
      requires k in cbps
      modifies this
      ensures Res(View(), ok) == Release(old(View()), k, a)
    {
      var n := cbps[k].ifIndex;
      if n == 0 || cbps[k].external {
        return true;
      }
      if n !in phys || !a.phyRemoved {
        return false;
      }
      phys := phys - {n};
      if n in iLans && a.iLanFound {
        if !a.iLanRemoved {
          return false;
        }
        iLans := iLans - {n};
      }
      cbps := cbps[k := cbps[k].(ifIndex := 0)];
      cbps := cbps[k := cbps[k].(external := true)];
      ok := true;
    }

    /** The update as written, with its return value set early and left alone by the exits. */
    method RowStatusUpdate(k: PortKey, want: Status, a: Answers) returns (ok: bool)
      requires k in cbps
      modifies this
      ensures Res(View(), ok) == Update(old(View()), k, want, a)
    {
      ok := false;
      if !a.found {
        return;
      }
      if want == Active && cbps[k].ifIndex == 0 {
        ok := AcquireInterface(k, a);
        if !ok {
          return;
        }
      }
      if want != Active && !a.halOff {
        return;
      }
      if want == Destroy && a.clears {
        cbps := cbps[k := cbps[k].(ifIndex := 0)];
      }
      if !a.base || (want == Active && !a.halOn) {
        return;
      }
      if want == Destroy {
        ok := ReleaseInterface(k, a);
        if !ok {
          return;
        }
      }
      ok := true;
    }

    method RowStatusHandler(k: PortKey, q: Request, a: Answers) returns (ok: bool)
      requires k in cbps
      modifies this
      ensures Res(View(), ok) == Handled(old(View()), k, q, a)
    {
      var status := cbps[k].status;
      assert cbps[k := cbps[k].(status := status)] == cbps;
      if !q.component {
        return q.fromParent;
      }
      if status == q.req || Ignored(status, q.req, q.fromParent) {
        return true;
      }
      match q.req {
        case Active =>
          var actual := if !q.fromParent && !q.componentActive then NotReady else Active;
          ok := RowStatusUpdate(k, actual, a);
          status := if ok then actual else status;
        case NotInService =>
          ok := RowStatusUpdate(k, NotInService, a);
          status := if !ok then status else if status == Active && q.fromParent then NotReady else NotInService;
        case CreateAndGo =>
          ok := false;
        case CreateAndWait =>
          ok, status := true, NotInService;
        case Destroy =>
          ok := RowStatusUpdate(k, Destroy, a);
          status := if ok then NotInService else status;
        case NotReady =>
          ok := true;
      }
      cbps := cbps[k := cbps[k].(status := status)];
      ok := ok || q.fromParent;
    }
  }

  // ---- Interfaces are owned ---------------------------------------------------------------------

  /** The CBPs with an interface of their own. */
  predicate Internal(s: State, k: PortKey) {
    k in s.cbps && !s.cbps[k].external
  }

  predicate Owns(s: State, k: PortKey)
    requires k in s.cbps
  {
    s.cbps[k].ifIndex != 0 && s.cbps[k].ifIndex in s.iLans
  }

  /** Every internal CBP has the interface of a live internal LAN, and no two have the same. */
  ghost predicate Owned(s: State) {
    && 0 !in s.iLans
    && (forall k | Internal(s, k) :: Owns(s, k))
    && (forall k, l | Internal(s, k) && Internal(s, l) && s.cbps[k].ifIndex == s.cbps[l].ifIndex :: k == l)
  }

  /** The internal LANs no CBP owns. */
  function Unowned(s: State): set<nat> {
    s.iLans - set k | k in s.cbps && !s.cbps[k].external :: s.cbps[k].ifIndex
  }

  /** The base-port handler takes the interface away from under an internal CBP. */
  predicate Disowns(s: State, k: PortKey, want: Status, a: Answers)
    requires k in s.cbps
  {
    want == Destroy && !s.cbps[k].external && a.found && a.halOff && a.clears
  }

  /** A LAN is made but does not come up and stays, or its physical port is not made. */
  predicate HalfMade(s: State, k: PortKey, want: Status, a: Answers)
    requires k in s.cbps
  {
    && Needs(s, k, want) && a.found && a.iLan.Some? && a.iLan.value != 0 && a.iLan.value !in s.iLans
    && (if a.iLanUp then !a.phy || a.iLan.value in s.phys else !a.iLanCleanup)
  }

  /** A LAN is given back without being found. */
  predicate Forgets(s: State, k: PortKey, want: Status, a: Answers)
    requires k in s.cbps
  {
    var c := s.cbps[k];
    && want == Destroy && !c.external && a.found && a.halOff && a.base && !a.clears
    && c.ifIndex in s.phys && a.phyRemoved && !a.iLanFound
  }

  /** The LANs one update loses. */
  function Leak(s: State, k: PortKey, want: Status, a: Answers): set<nat>
    requires k in s.cbps
  {
    if HalfMade(s, k, want, a) then {a.iLan.value}
    else if Disowns(s, k, want, a) || Forgets(s, k, want, a) then {s.cbps[k].ifIndex}
    else {}
  }

  lemma OwnerOf(s: State, n: nat)
    ensures n in Unowned(s) <==> n in s.iLans && forall k | Internal(s, k) :: s.cbps[k].ifIndex != n
  {
  }

  lemma AcquireOwned(s: State, k: PortKey, a: Answers)
    requires Owned(s) && k in s.cbps && s.cbps[k].ifIndex == 0 && a.found
    ensures Owned(Acquire(s, k, a).s) && Unowned(Acquire(s, k, a).s) == Unowned(s) + Leak(s, k, Active, a)
  {
    var r := Acquire(s, k, a);
    assert Internal(s, k) ==> Owns(s, k);
    forall l ensures Internal(r.s, l) <==> Internal(s, l) || (r.ok && l == k) {
    }
    forall l | Internal(r.s, l) ensures Owns(r.s, l) {
      assert l != k ==> Owns(s, l);
    }
    forall n ensures n in Unowned(r.s) <==> n in Unowned(s) + Leak(s, k, Active, a) {
      OwnerOf(s, n);
      OwnerOf(r.s, n);
    }
  }

  lemma ReleaseOwned(s: State, k: PortKey, a: Answers)
    requires Owned(s) && k in s.cbps
    ensures var c := s.cbps[k];
      var forgotten := !c.external && c.ifIndex in s.phys && a.phyRemoved && !a.iLanFound;
      Owned(Release(s, k, a).s) && Unowned(Release(s, k, a).s) == Unowned(s) + if forgotten then {c.ifIndex} else {}
  {
    var c, t := s.cbps[k], Release(s, k, a).s;
    var forgotten := !c.external && c.ifIndex in s.phys && a.phyRemoved && !a.iLanFound;
    assert Internal(s, k) ==> Owns(s, k);
    forall l ensures Internal(t, l) ==> Internal(s, l) && t.cbps[l] == s.cbps[l] {
    }
    forall l | Internal(t, l) ensures Owns(t, l) {
      assert Owns(s, l);
    }
    forall n ensures n in Unowned(t) <==> n in Unowned(s) || (forgotten && n == c.ifIndex) {
      OwnerOf(s, n);
      OwnerOf(t, n);
      assert Internal(s, k) && n in t.iLans ==> t == s || n != c.ifIndex || Internal(t, k) || forgotten;
    }
  }

  /** An internal CBP whose base port loses the interface owns nothing, and its LAN is lost. */
  lemma ClearedIsLost(s: State, k: PortKey)
    requires Owned(s) && Internal(s, k)
    ensures var t := Set(s, k, s.cbps[k].(ifIndex := 0));
      !Owned(t) && Unowned(t) == Unowned(s) + {s.cbps[k].ifIndex}
  {
    var t := Set(s, k, s.cbps[k].(ifIndex := 0));
    assert Owns(s, k) && Internal(t, k) && !Owns(t, k);
    forall n ensures n in Unowned(t) <==> n in Unowned(s) || n == s.cbps[k].ifIndex {
      OwnerOf(s, n);
      OwnerOf(t, n);
      assert forall l :: Internal(t, l) <==> Internal(s, l);
    }
  }

  /** Clearing the interface of an external CBP, or changing a status, touches no ownership. */
  lemma EqualOwned(s: State, t: State)
    requires Owned(s) && t.iLans == s.iLans && t.cbps.Keys == s.cbps.Keys
    requires forall k | k in s.cbps :: SameInterface(s.cbps[k], t.cbps[k])
    ensures Owned(t) && Unowned(t) == Unowned(s)
  {
    forall k ensures Internal(t, k) <==> Internal(s, k) {
    }
    forall k | Internal(t, k) ensures Owns(t, k) {
      assert Owns(s, k);
    }
    forall n ensures n in Unowned(t) <==> n in Unowned(s) {
      OwnerOf(s, n);
      OwnerOf(t, n);
    }
  }

  predicate SameInterface(c: Cbp, d: Cbp) {
    c.external == d.external && (!c.external ==> c.ifIndex == d.ifIndex)
  }

  lemma FinishOwned(s: State, k: PortKey, want: Status, made: bool, a: Answers)
    requires Owned(s) && k in s.cbps && a.found
    ensures var t := Finish(s, k, want, made, a).s;
      if want == Destroy && !s.cbps[k].external && a.halOff && a.clears
      then !Owned(t) && Unowned(t) == Unowned(s) + {s.cbps[k].ifIndex}
      else Owned(t) && Unowned(t) == Unowned(s) + if Forgets(s, k, want, a) then {s.cbps[k].ifIndex} else {}
  {
    var cleared := if want == Destroy && a.clears then Set(s, k, s.cbps[k].(ifIndex := 0)) else s;
    if want == Active || a.halOff {
      if want == Destroy && a.clears && !s.cbps[k].external {
        ClearedIsLost(s, k);
        assert Release(cleared, k, a).s == cleared;
      } else {
        EqualOwned(s, cleared);
        ReleaseOwned(cleared, k, a);
      }
    }
  }

  /** One update, through every exit: ownership holds afterwards if and only if the base port
      did not drop the interface of an internal CBP, and exactly the LANs of Leak are lost. */
  lemma UpdateOwnedIff(s: State, k: PortKey, want: Status, a: Answers)
    requires Owned(s) && k in s.cbps
    ensures Owned(Update(s, k, want, a).s) <==> !Disowns(s, k, want, a)
    ensures Unowned(Update(s, k, want, a).s) == Unowned(s) + Leak(s, k, want, a)
  {
    if a.found {
      if Needs(s, k, want) {
        AcquireOwned(s, k, a);
        var r := Acquire(s, k, a);
        if r.ok {
          FinishOwned(r.s, k, want, true, a);
        }
      } else {
        assert Leak(s, k, want, a) ==
          if want == Destroy && !s.cbps[k].external && a.halOff && (a.clears || Forgets(s, k, want, a))
            then {s.cbps[k].ifIndex} else {};
        FinishOwned(s, k, want, false, a);
      }
    }
  }

  /** One handler call: the same, for what it asks its update. */
  lemma HandledOwnedIff(s: State, k: PortKey, q: Request, a: Answers)
    requires Owned(s) && k in s.cbps
    ensures var asked := AskedFor(s, k, q);
      && (Owned(Handled(s, k, q, a).s) <==> !(asked != [] && Disowns(s, k, asked[0], a)))
      && Unowned(Handled(s, k, q, a).s) == Unowned(s) + if asked == [] then {} else Leak(s, k, asked[0], a)
  {
    var asked := AskedFor(s, k, q);
    var r := if asked == [] then Res(s, true) else Update(s, k, asked[0], a);
    if asked != [] {
      UpdateOwnedIff(s, k, asked[0], a);
    }
    StatusIsNoInterface(r.s, Handled(s, k, q, a).s, k);
  }

  lemma StatusIsNoInterface(s: State, t: State, k: PortKey)
    requires k in s.cbps && k in t.cbps && t == Set(s, k, s.cbps[k].(status := t.cbps[k].status))
    ensures (Owned(s) <==> Owned(t)) && Unowned(t) == Unowned(s)
  {
    if Owned(s) {
      EqualOwned(s, t);
    } else if Owned(t) {
      EqualOwned(t, s);
    }
    forall n ensures n in Unowned(t) <==> n in Unowned(s) {
      OwnerOf(s, n);
      OwnerOf(t, n);
      assert forall l :: Internal(t, l) <==> Internal(s, l);
    }
  }

  // ---- Runs ---------------------------------------------------------------------------------------

  /** What can happen to CBP rows, their base ports and the internal LANs: handler calls, what
      a SET commits, and other code's doings. */
  datatype Event =
    | Created(k: PortKey, ifIndex: nat)     // a row made with the memory it needs
    | Removed(k: PortKey)                   // a SET of destroy: the row goes, nothing else
    | Stored(k: PortKey, active: bool)      // a SET of the row status
    | BasePortSet(k: PortKey, ifIndex: nat) // the writable interface of the base port
    | LanMade(n: nat)
    | LanGone(n: nat)
    | PhysSet(phys: set<nat>)
    | Handling(k: PortKey, request: Request, answers: Answers)

  function Step(s: State, ev: Event): State {
    match ev
    case Created(k, ifIndex) => if k in s.cbps then s else Set(s, k, CbpRow(ifIndex, true, NotInService))
    case Removed(k) => s.(cbps := s.cbps - {k})
    case Stored(k, active) => if k in s.cbps then Set(s, k, s.cbps[k].(status := Committed(active))) else s
    case BasePortSet(k, ifIndex) => if k in s.cbps then Set(s, k, s.cbps[k].(ifIndex := ifIndex)) else s
    case LanMade(n) => if n == 0 then s else s.(iLans := s.iLans + {n})
    case LanGone(n) => s.(iLans := s.iLans - {n})
    case PhysSet(phys) => s.(phys := phys)
    case Handling(k, q, a) => if k in s.cbps then Handled(s, k, q, a).s else s
  }

  /** Another CBP's own interface. */
  predicate Others(s: State, k: PortKey, n: nat) {
    exists l :: l in s.cbps && l != k && !s.cbps[l].external && s.cbps[l].ifIndex == n
  }

  /** The base port of an internal CBP keeps its interface, or gets another live LAN nobody
      owns; and nobody takes an owned LAN away. */
  predicate Keeps(s: State, ev: Event) {
    match ev
    case BasePortSet(k, n) => Internal(s, k) ==> n in s.iLans && !Others(s, k, n)
    case LanGone(n) => forall k | k in s.cbps :: s.cbps[k].external || s.cbps[k].ifIndex != n
    case Handling(k, q, a) =>
      k in s.cbps ==>
        var asked := AskedFor(s, k, q);
        asked != [] ==> !Disowns(s, k, asked[0], a)
    case _ => true
  }

  /** The LANs one event leaves without an owner. */
  function Lost(s: State, ev: Event): set<nat> {
    match ev
    case Removed(k) => if Internal(s, k) then {s.cbps[k].ifIndex} else {}
    case BasePortSet(k, _) => if Internal(s, k) then {s.cbps[k].ifIndex} else {}
    case LanMade(n) => if n == 0 || n in s.iLans then {} else {n}
    case Handling(k, q, a) =>
      if k !in s.cbps then {} else
        var asked := AskedFor(s, k, q);
        if asked == [] then {} else Leak(s, k, asked[0], a)
    case _ => {}
  }

  /** Those it takes: they get an owner, or go. */
  function Taken(s: State, ev: Event): set<nat> {
    match ev
    case BasePortSet(k, n) => if Internal(s, k) then {n} else {}
    case LanGone(n) => {n}
    case _ => {}
  }

  function Run(s: State, events: seq<Event>): State {
    if events == [] then s else Step(Run(s, events[..|events| - 1]), events[|events| - 1])
  }

  /** The LANs without an owner, kept by account. */
  function Account(s: State, events: seq<Event>): set<nat> {
    if events == [] then Unowned(s)
    else
      var before, ev := events[..|events| - 1], events[|events| - 1];
      Account(s, before) + Lost(Run(s, before), ev) - Taken(Run(s, before), ev)
  }

  lemma CreatedOwned(s: State, k: PortKey, ifIndex: nat)
    requires Owned(s)
    ensures var t := Step(s, Created(k, ifIndex)); Owned(t) && Unowned(t) == Unowned(s)
  {
    var t := Step(s, Created(k, ifIndex));
    forall l ensures Internal(t, l) <==> Internal(s, l) {
    }
    forall l | Internal(t, l) ensures Owns(t, l) {
      assert Owns(s, l);
    }
    forall n ensures n in Unowned(t) <==> n in Unowned(s) {
      OwnerOf(s, n);
      OwnerOf(t, n);
    }
  }

  /** The row of an internal CBP goes by a SET: its LAN stays, without an owner. */
  lemma RemovedOwned(s: State, k: PortKey)
    requires Owned(s)
    ensures var t := Step(s, Removed(k)); Owned(t) && Unowned(t) == Unowned(s) + Lost(s, Removed(k))
  {
    var t := Step(s, Removed(k));
    assert Internal(s, k) ==> Owns(s, k);
    forall l ensures Internal(t, l) <==> Internal(s, l) && l != k {
    }
    forall l | Internal(t, l) ensures Owns(t, l) {
      assert Owns(s, l);
    }
    forall n ensures n in Unowned(t) <==> n in Unowned(s) + Lost(s, Removed(k)) {
      OwnerOf(s, n);
      OwnerOf(t, n);
    }
  }

  lemma BasePortSetOwned(s: State, k: PortKey, n: nat)
    requires Owned(s) && Internal(s, k)
    ensures var t := Step(s, BasePortSet(k, n));
      && (Owned(t) <==> n in s.iLans && !Others(s, k, n))
      && (Owned(t) ==> Unowned(t) == Unowned(s) + {s.cbps[k].ifIndex} - {n})
  {
    var t := Step(s, BasePortSet(k, n));
    assert Owns(s, k) && Internal(t, k);
    forall l ensures Internal(t, l) <==> Internal(s, l) {
    }
    if n in s.iLans && !Others(s, k, n) {
      forall l | Internal(t, l) ensures Owns(t, l) {
        assert Owns(s, l);
      }
      forall m ensures m in Unowned(t) <==> m in Unowned(s) + {s.cbps[k].ifIndex} - {n} {
        OwnerOf(s, m);
        OwnerOf(t, m);
      }
    } else if n in s.iLans {
      var l :| l in s.cbps && l != k && !s.cbps[l].external && s.cbps[l].ifIndex == n;
      assert Internal(t, l);
    } else {
      assert !Owns(t, k);
    }
  }

  lemma LanOwned(s: State, ev: Event)
    requires Owned(s) && (ev.LanMade? || ev.LanGone?)
    ensures var t := Step(s, ev);
      && (Owned(t) <==> Keeps(s, ev))
      && (Owned(t) ==> Unowned(t) == Unowned(s) + Lost(s, ev) - Taken(s, ev))
  {
    var t := Step(s, ev);
    forall l ensures Internal(t, l) <==> Internal(s, l) {
    }
    if Keeps(s, ev) {
      forall l | Internal(t, l) ensures Owns(t, l) {
        assert Owns(s, l);
      }
      forall n ensures n in Unowned(t) <==> n in Unowned(s) + Lost(s, ev) - Taken(s, ev) {
        OwnerOf(s, n);
        OwnerOf(t, n);
        assert n in Lost(s, ev) ==> forall l | Internal(s, l) :: Owns(s, l);
      }
    } else {
      var k :| k in s.cbps && !s.cbps[k].external && s.cbps[k].ifIndex == ev.n;
      assert Internal(t, k) && !Owns(t, k);
    }
  }

  /** One event: ownership holds after it if and only if it keeps it, and then the LANs without
      an owner are those of before, with the lost and without the taken. */
  lemma StepOwnedIff(s: State, ev: Event)
    requires Owned(s)
    ensures Owned(Step(s, ev)) <==> Keeps(s, ev)
    ensures Keeps(s, ev) ==> Unowned(Step(s, ev)) == Unowned(s) + Lost(s, ev) - Taken(s, ev)
  {
    match ev
    case Created(k, ifIndex) => CreatedOwned(s, k, ifIndex);
    case Removed(k) => RemovedOwned(s, k);
    case Stored(k, active) => if k in s.cbps { StatusIsNoInterface(s, Step(s, ev), k); }
    case BasePortSet(k, n) =>
      if Internal(s, k) { BasePortSetOwned(s, k, n); } else { EqualOwned(s, Step(s, ev)); }
    case LanMade(_) => LanOwned(s, ev);
    case LanGone(_) => LanOwned(s, ev);
    case PhysSet(_) => EqualOwned(s, Step(s, ev));
    case Handling(k, q, a) => if k in s.cbps { HandledOwnedIff(s, k, q, a); }
  }

  /** On every run that keeps ownership at each event each internal CBP has its own live LAN,
      and the LANs without an owner are exactly those of the account: those of the start and
      those other code made; LANs that did not come up and were not removed, or got no physical
      port; LANs not found when given back; and the LANs of rows that a SET removed and of base
      ports that were given another; less those that got an owner or went. */
  lemma {:induction false} RunOwned(s: State, events: seq<Event>)
    requires Owned(s)
    requires forall i | 0 <= i < |events| :: Keeps(Run(s, events[..i]), events[i])
    ensures Owned(Run(s, events))
    ensures Unowned(Run(s, events)) == Account(s, events)
  {
    if events != [] {
      var before, ev := events[..|events| - 1], events[|events| - 1];
      forall i | 0 <= i < |before| ensures Keeps(Run(s, before[..i]), before[i]) {
        assert before[..i] == events[..i];
        assert Keeps(Run(s, events[..i]), events[i]);
      }
      RunOwned(s, before);
      assert Keeps(Run(s, before), ev);
      StepOwnedIff(Run(s, before), ev);
    }
  }

  // ---- Activation and destruction -------------------------------------------------------------------

  /** An activation that makes an interface is reported as a success and stored as active,
      whatever the base port and the hardware answered. */
  lemma FreshInterfaceIsSuccess(s: State, k: PortKey, q: Request, a: Answers)
    requires k in s.cbps && AskedFor(s, k, q) == [Active] && Needs(s, k, Active) && a.found
    requires Acquire(s, k, a).ok
    ensures var r := Handled(s, k, q, a);
      r.ok && k in r.s.cbps && r.s.cbps[k] == CbpRow(a.iLan.value, false, Active)
  {
  }

  /** Internal LAN and physical port can be made. */
  predicate CanMake(s: State, a: Answers) {
    a.iLan.Some? && a.iLan.value != 0 && a.iLan.value !in s.iLans && a.iLanUp && a.phy && a.iLan.value !in s.phys
  }

  /** Physical port and internal LAN can be given back. */
  predicate CanGive(s: State, c: Cbp, a: Answers) {
    c.ifIndex in s.phys && a.phyRemoved && (c.ifIndex in s.iLans && a.iLanFound ==> a.iLanRemoved)
  }

  /** Every step the update has for this status succeeds. */
  predicate Completes(s: State, k: PortKey, want: Status, a: Answers)
    requires k in s.cbps
  {
    var c := s.cbps[k];
    && a.found && a.base
    && (want == Active && c.ifIndex == 0 ==> CanMake(s, a))
    && (if want == Active then a.halOn else a.halOff)
    && (want == Destroy && !c.external && c.ifIndex != 0 && !a.clears ==> CanGive(s, c, a))
  }

  /** What the update answers. */
  predicate Heard(s: State, k: PortKey, want: Status, a: Answers)
    requires k in s.cbps
  {
    Completes(s, k, want, a) || (want == Active && s.cbps[k].ifIndex == 0 && a.found && CanMake(s, a))
  }

  /** The update answers true when it completed, and also when it made an interface and then
      failed at the base port or at the hardware. That is the one way a true answer lies. */
  lemma TrueAnswerIff(s: State, k: PortKey, want: Status, a: Answers)
    requires k in s.cbps
    ensures var lies := want == Active && s.cbps[k].ifIndex == 0 && a.found && CanMake(s, a) && !(a.base && a.halOn);
      && (Update(s, k, want, a).ok <==> Completes(s, k, want, a) || lies)
      && (Update(s, k, want, a).ok <==> Heard(s, k, want, a))
      && !(Completes(s, k, want, a) && lies)
  {
  }

  // ---- The status the handler stores --------------------------------------------------------------

  /** What a request asks the update for, if it asks. */
  function WantOf(q: Request): Status {
    if q.req == Active && !q.fromParent && !q.componentActive then NotReady else q.req
  }

  /** The handler asks nothing of its update: the row is not reached, or is there already, or
      the component's word does not concern it, or the request has no update. */
  predicate Quiet(was: Status, q: Request) {
    || !q.component || was == q.req
    || (q.fromParent && ((q.req == Active && was == NotInService) || (q.req == NotInService && was == NotReady)))
    || q.req == NotReady || q.req == CreateAndGo || q.req == CreateAndWait
  }

  lemma AskedIff(s: State, k: PortKey, q: Request)
    requires k in s.cbps && RowStatus.Stored(s.cbps[k].status)
    ensures AskedFor(s, k, q) == if Quiet(s.cbps[k].status, q) then [] else [WantOf(q)]
  {
  }

  /** From each stored status, for each request: the status the handler stores, and its answer.
      An update that fails leaves the status, and the administrator hears of it. */
  lemma StoredStatusIs(s: State, k: PortKey, q: Request, a: Answers)
    requires k in s.cbps && RowStatus.Stored(s.cbps[k].status)
    ensures var was, r := s.cbps[k].status, Handled(s, k, q, a);
      k in r.s.cbps && (r.s.cbps[k].status, r.ok) ==
        if !q.component then (was, q.fromParent)
        else if Quiet(was, q) then
          (if q.req == CreateAndWait then NotInService else was, q.fromParent || q.req != CreateAndGo)
        else if !Heard(s, k, WantOf(q), a) then (was, q.fromParent)
        else if q.req == Active then (if q.fromParent || q.componentActive then Active else NotReady, true)
        else if q.req == NotInService then (if q.fromParent then NotReady else NotInService, true)
        else (NotInService, true)
  {
    AskedIff(s, k, q);
    TrueAnswerIff(s, k, WantOf(q), a);
  }

  /** The handler is the transition of RowStatus for a port, told what the update answered. */
  lemma HandledIsNext(s: State, k: PortKey, q: Request, a: Answers)
    requires k in s.cbps && RowStatus.Stored(s.cbps[k].status)
    ensures var r := Handled(s, k, q, a);
      var c := Call(q.req, q.fromParent, Env(q.component, true, q.componentActive, true, Heard(s, k, WantOf(q), a)));
      && k in r.s.cbps
      && r.s.cbps[k].status == Next(Port, s.cbps[k].status, Called(c))
  {
    AskedIff(s, k, q);
    TrueAnswerIff(s, k, WantOf(q), a);
  }

  /** A component that goes down and comes back, with updates that complete, gives an active
      CBP back as it was if it has an interface; without one it gets one. A CBP out of service
      is left alone. */
  lemma FlapGivesBack(s: State, k: PortKey, down: Request, a: Answers, up: Request, b: Answers)
    requires k in s.cbps
    requires down == Request(NotInService, true, true, down.componentActive)
    requires up == Request(Active, true, true, up.componentActive)
    requires s.cbps[k].status == Active ==> Completes(s, k, NotInService, a) && Completes(s, k, Active, b)
    ensures var t := Handled(s, k, down, a).s;
      && k in t.cbps
      && (s.cbps[k].status == Active ==>
            && t == Set(s, k, s.cbps[k].(status := NotReady))
            && Handled(t, k, up, b).s ==
              if s.cbps[k].ifIndex != 0 then s
              else State(s.cbps[k := CbpRow(b.iLan.value, false, Active)], s.iLans + {b.iLan.value},
                s.phys + {b.iLan.value}))
      && (s.cbps[k].status == NotInService ==> Handled(t, k, up, b).s == s)
  {
    var c := s.cbps[k];
    if c.status == Active {
      var t := Set(s, k, c.(status := NotReady));
      assert AskedFor(s, k, down) == [NotInService] && Update(s, k, NotInService, a) == Res(s, true);
      assert Handled(s, k, down, a).s == t;
      assert AskedFor(t, k, up) == [Active];
      if c.ifIndex != 0 {
        assert Update(t, k, Active, b) == Res(t, true);
        assert t.cbps[k := t.cbps[k].(status := Active)] == s.cbps;
      } else {
        assert Update(t, k, Active, b).s.cbps == s.cbps[k := CbpRow(b.iLan.value, false, NotReady)];
        assert Handled(t, k, up, b).s.cbps == s.cbps[k := CbpRow(b.iLan.value, false, Active)];
      }
    } else if c.status == NotInService {
      assert s.cbps[k := s.cbps[k].(status := NotInService)] == s.cbps;
      assert Handled(s, k, down, a).s == s;
    }
  }

  // ---- The two-bit specification over runs ------------------------------------------------------------

  /** What an event is to the row of CBP k, if it reaches it. */
  function Seen(s: State, k: PortKey, ev: Event): seq<RowStatus.Event>
    requires k in s.cbps
  {
    match ev
    case Stored(j, active) => if j == k then [Store(active)] else []
    case Handling(j, q, a) =>
      if j != k || !q.component then []
      else
        var ok := Heard(s, k, WantOf(q), a);
        [if q.fromParent then Parent(q.req, ok) else Admin(q.req, ok)]
    case _ => []
  }

  function Tracked(x: Sys, seen: seq<RowStatus.Event>): Sys {
    if seen == [] then x else RowStatus.Step(x, seen[0])
  }

  /** The row of k stays in the table, its component sends what a component sends, and an
      administrator's request finds the component's status as the row was last told it. */
  predicate Follows(k: PortKey, x: Sys, ev: Event) {
    && ev != Removed(k)
    && (ev.Handling? && ev.k == k && ev.request.component ==>
          if ev.request.fromParent then ParentSends(ev.request.req) else ev.request.componentActive == x.up)
  }

  /** The two bits of CBP k after a run. */
  function Track(s: State, k: PortKey, x: Sys, events: seq<Event>): Sys {
    if events == [] then x else
      var before := events[..|events| - 1];
      var y, t := Track(s, k, x, before), Run(s, before);
      if k in t.cbps then Tracked(y, Seen(t, k, events[|events| - 1])) else y
  }

  lemma EventTracked(s: State, k: PortKey, x: Sys, ev: Event)
    requires k in s.cbps && Refines(x) && s.cbps[k].status == x.status && Follows(k, x, ev)
    ensures var t, y := Step(s, ev), Tracked(x, Seen(s, k, ev));
      k in t.cbps && t.cbps[k].status == y.status && Refines(y)
  {
    if ev.Handling? && ev.k == k && ev.request.component {
      HandledIsNext(s, k, ev.request, ev.answers);
      StepRefines(x, Seen(s, k, ev)[0]);
    } else if ev.Handling? && ev.k == k {
      assert Handled(s, k, ev.request, ev.answers).s.cbps[k].status == x.status;
    } else if ev.Handling? && ev.k in s.cbps {
      OthersKept(s, ev.k, ev.request, ev.answers, k);
    }
  }

  lemma OthersKept(s: State, k: PortKey, q: Request, a: Answers, j: PortKey)
    requires k in s.cbps && j in s.cbps && j != k
    ensures var t := Handled(s, k, q, a).s;
      j in t.cbps && t.cbps[j] == s.cbps[j]
  {
    var asked := AskedFor(s, k, q);
    if asked != [] {
      UpdateKeeps(s, k, asked[0], a, j);
    }
  }

  lemma UpdateKeeps(s: State, k: PortKey, want: Status, a: Answers, j: PortKey)
    requires k in s.cbps && j in s.cbps && j != k
    ensures var t := Update(s, k, want, a).s;
      j in t.cbps && t.cbps[j] == s.cbps[j]
  {
  }

  /** Over every run - handler calls for this CBP and for others, whichever updates fail, SETs
      and other code's doings - a CBP is active iff wanted and its component up, notReady iff
      wanted and down, and notInService otherwise, but for the rows ahead and behind. */
  lemma {:induction false} RunKeepsTwoBits(s: State, k: PortKey, x: Sys, events: seq<Event>)
    requires k in s.cbps && Refines(x) && s.cbps[k].status == x.status
    requires forall i | 0 <= i < |events| :: Follows(k, Track(s, k, x, events[..i]), events[i])
    ensures var t, y := Run(s, events), Track(s, k, x, events);
      && k in t.cbps
      && t.cbps[k].status == y.status == Spec(y.wanted, (y.up && !y.behind) || y.ahead)
      && Refines(y)
  {
    if events != [] {
      var before, ev := events[..|events| - 1], events[|events| - 1];
      forall i | 0 <= i < |before| ensures Follows(k, Track(s, k, x, before[..i]), before[i]) {
        assert before[..i] == events[..i];
        assert Follows(k, Track(s, k, x, events[..i]), events[i]);
      }
      RunKeepsTwoBits(s, k, x, before);
      assert Follows(k, Track(s, k, x, before), ev);
      EventTracked(Run(s, before), k, Track(s, k, x, before), ev);
    }
  }

  /** In particular from the row's creation on: nobody wants it yet, and it comes without an
      interface of its own. */
  lemma CreatedKeepsTwoBits(s: State, k: PortKey, ifIndex: nat, up: bool, events: seq<Event>)
    requires k !in s.cbps
    requires var x := Sys(NotInService, false, up, false, false);
      var t := Step(s, Created(k, ifIndex));
      k in t.cbps && forall i | 0 <= i < |events| :: Follows(k, Track(t, k, x, events[..i]), events[i])
    ensures var x := Sys(NotInService, false, up, false, false);
      var t := Step(s, Created(k, ifIndex));
      var y := Track(t, k, x, events);
      && t == State(s.cbps[k := CbpRow(ifIndex, true, NotInService)], s.iLans, s.phys)
      && k in Run(t, events).cbps
      && Run(t, events).cbps[k].status == Spec(y.wanted, (y.up && !y.behind) || y.ahead)
  {
    RunKeepsTwoBits(Step(s, Created(k, ifIndex)), k, Sys(NotInService, false, up, false, false), events);
  }

  /** Activation followed by destruction gives everything back: the interface, the flag, the
      LANs and the physical ports, when the calls succeed and the base port keeps the interface.
      The program's own base-port handler never does both, see DestroyLosesTheLan: this is
      what the update is written for. */
  lemma DestroyUndoesActivate(s: State, k: PortKey, q: Request, a: Answers, r: Request, b: Answers)
    requires Owned(s) && k in s.cbps && s.cbps[k] == CbpRow(0, true, s.cbps[k].status) && a.found
    requires AskedFor(s, k, q) == [Active] && Acquire(s, k, a).ok
    requires r.req == Destroy && r.component
    requires b.found && b.halOff && b.base && !b.clears && b.phyRemoved && b.iLanFound && b.iLanRemoved
    ensures var t := Handled(s, k, q, a).s;
      k in t.cbps && Handled(t, k, r, b) == Res(Set(s, k, s.cbps[k].(status := NotInService)), true)
  {
    var n := a.iLan.value;
    FreshInterfaceIsSuccess(s, k, q, a);
    var t := Handled(s, k, q, a).s;
    assert t == State(s.cbps[k := CbpRow(n, false, Active)], s.iLans + {n}, s.phys + {n});
    var u := Release(t, k, b).s;
    assert u.iLans == s.iLans;
    assert u.phys == s.phys;
    assert Handled(t, k, r, b).s.cbps == s.cbps[k := s.cbps[k].(status := NotInService)];
  }

  /** The program's own base-port handler drops the interface first. Then the destruction of an
      internal CBP reports success, and leaves the LAN, its physical port and a flag that says
      internal with no interface. */
  lemma DestroyLosesTheLan(s: State, k: PortKey, r: Request, b: Answers)
    requires Owned(s) && Internal(s, k) && AskedFor(s, k, r) == [Destroy]
    requires b.found && b.halOff && b.base && b.clears
    ensures var t := Handled(s, k, r, b);
      && t.ok && t.s == Set(s, k, CbpRow(0, false, NotInService)) && !Owned(t.s)
      && s.cbps[k].ifIndex in Unowned(t.s)
  {
    HandledOwnedIff(s, k, r, b);
  }
}
