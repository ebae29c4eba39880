/** C-VID registrations and the edge ports that count them: an edge port's u32NumCVid is the
    number of active registrations with its component, port and S-VID. The counter is a
    32-bit unsigned value, wrap-around written out. */
module CVid {
  import opened RowStatus
  import opened Sets

  const U32 := 0x1_0000_0000

  /** The row's C-VID is a 32-bit column; nothing bounds it further. */
  type Vid = v: nat | v < 0x1_0000_0000

  datatype RegKey = RegKey(component: nat, port: nat, cvid: Vid)

  datatype Reg = Reg(svid: nat, status: Status)

  datatype EdgeKey = EdgeKey(component: nat, port: nat, svid: nat)

  datatype Tables = Tables(regs: map<RegKey, Reg>, edges: map<EdgeKey, nat>)

  /** What a handler call finds around it, and the answers it gets. */
  datatype World = World(
    cep: bool, cepActive: bool, // the customer edge port row exists; its stored status
    sVlan: bool,                // the S-VLAN's static row exists
    component: bool, cVlan: bool, // the update finds the port again, the C-component and the C-VLAN's static row
    edge: bool,                 // the edge-port lookup gets the memory it needs
    members: bool, vlanRow: bool) // the VLAN member update and the VLAN row-status handler succeed

  function EdgeOf(k: RegKey, svid: nat): EdgeKey {
    EdgeKey(k.component, k.port, svid)
  }

  /** The edge port the update finds. A lookup short of memory finds none. */
  predicate Finds(t: Tables, e: EdgeKey, w: World) {
    e in t.edges && w.edge
  }

  /** ieee8021PbCVidRegistrationRowStatus_update: does it succeed? */
  predicate Updates(t: Tables, k: RegKey, want: Status, w: World)
    requires k in t.regs
  {
    || (t.regs[k].status == Active <==> want == Active)
    || (w.cep && w.component && w.cVlan && (Finds(t, EdgeOf(k, t.regs[k].svid), w) ==> w.members) && w.vlanRow)
  }

  /** ... and what it does to the counter. */
  function Counted(t: Tables, k: RegKey, want: Status, w: World): map<EdgeKey, nat>
    requires k in t.regs
  {
    var e := EdgeOf(k, t.regs[k].svid);
    if (t.regs[k].status == Active <==> want == Active) || !Updates(t, k, want, w) || !Finds(t, e, w) then t.edges
    else t.edges[e := if want == Active then Inc(t.edges[e]) else Dec(t.edges[e])]
  }

  /** Increment and decrement of an unsigned 32-bit variable. */
  function Inc(n: nat): nat {
    if n == 0xFFFF_FFFF then 0 else n + 1
  }

  function Dec(n: nat): nat {
    if n == 0 then 0xFFFF_FFFF else n - 1
  }

  function CallOf(r: Reg, req: Status, fromParent: bool, w: World): Call {
    Call(req, fromParent, Env(w.cep, r.svid != 0 && w.sVlan, w.cepActive, true, true))
  }

  /** The status the handler asks its update for, if it gets that far. */
  function AskedFor(t: Tables, k: RegKey, req: Status, fromParent: bool, w: World): seq<Status>
    requires k in t.regs
  {
    Asked(Port, t.regs[k].status, CallOf(t.regs[k], req, fromParent, w))
  }

  /** The row's new status and the handler's answer. */
  function Answered(t: Tables, k: RegKey, req: Status, fromParent: bool, w: World): (Status, bool)
    requires k in t.regs
  {
    var asked := AskedFor(t, k, req, fromParent, w);
    var updates := asked != [] && Updates(t, k, asked[0], w);
    Handle(Port, t.regs[k].status, req, fromParent, CallOf(t.regs[k], req, fromParent, w).env.(updates := updates))
  }

  /** One handler call with its update. */
  function Handled(t: Tables, k: RegKey, req: Status, fromParent: bool, w: World): Tables
    requires k in t.regs
  {
    var asked := AskedFor(t, k, req, fromParent, w);
    Tables(t.regs[k := t.regs[k].(status := Answered(t, k, req, fromParent, w).0)],
           if asked == [] then t.edges else Counted(t, k, asked[0], w))
  }

  lemma NothingToDo(t: Tables, k: RegKey, req: Status, fromParent: bool, w: World)
    requires k in t.regs && (!w.cep || t.regs[k].status == req || Ignored(t.regs[k].status, req, fromParent))
    ensures Handled(t, k, req, fromParent, w) == t && Answered(t, k, req, fromParent, w).1 == (fromParent || w.cep)
  {
    assert t.regs[k := t.regs[k].(status := t.regs[k].status)] == t.regs;
  }

  /** What can happen to the two tables. COMMIT of a SET stores a row status itself: active
      for active and createAndGo, notInService for notInService and createAndWait. */
  datatype Event =
    | Register(k: RegKey)
    | Unregister(k: RegKey)
    | SetSVid(k: RegKey, svid: nat)
    | Commit(k: RegKey, active: bool)
    | Handler(k: RegKey, req: Status, fromParent: bool, w: World)
    | AddEdge(e: EdgeKey)
    | RemoveEdge(e: EdgeKey)

  function StatusSet(t: Tables, k: RegKey, active: bool): Tables
    requires k in t.regs
  {
    t.(regs := t.regs[k := t.regs[k].(status := Committed(active))])
  }

  function Step(t: Tables, ev: Event): Tables {
    match ev
    case Register(k) => if k in t.regs then t else t.(regs := t.regs[k := Reg(0, NotInService)])
    case Unregister(k) => t.(regs := t.regs - {k})
    case SetSVid(k, svid) => if k in t.regs then t.(regs := t.regs[k := t.regs[k].(svid := svid)]) else t
    case Commit(k, active) => if k in t.regs then StatusSet(t, k, active) else t
    case Handler(k, req, fromParent, w) => if k in t.regs then Handled(t, k, req, fromParent, w) else t
    case AddEdge(e) => if e in t.edges then t else t.(edges := t.edges[e := 0])
    case RemoveEdge(e) => t.(edges := t.edges - {e})
  }

  /** The two tables as the program keeps them. */
  class Registrations {
    var regs: map<RegKey, Reg>
    var edges: map<EdgeKey, nat>

    ghost function View(): Tables
      reads this
    {
      Tables(regs, edges)
    }

    constructor ()
      ensures View() == Tables(map[], map[])
    {
      regs, edges := map[], map[];
    }

    method Update(k: RegKey, want: Status, w: World) returns (ok: bool)
      requires k in regs
      modifies this`edges
      ensures ok == Updates(old(View()), k, want, w) && edges == Counted(old(View()), k, want, w)
    {
      if (regs[k].status == Active && want == Active) || (regs[k].status != Active && want != Active) {
        return true;
      }
      if !w.cep || !w.component || !w.cVlan {
        return false;
      }
      var e := EdgeOf(k, regs[k].svid);
      var found := e in edges && w.edge;
      if found && !w.members {
        return false;
      }
      if !w.vlanRow {
        return false;
      }
      if found {
        edges := edges[e := if want == Active then Inc(edges[e]) else Dec(edges[e])];
      }
      ok := true;
    }

    /** The handler's switch, up to the assignment of the status. */
    method Switch(k: RegKey, req: Status, fromParent: bool, w: World) returns (status: Status, ok: bool)
      requires k in regs && w.cep && regs[k].status != req && !Ignored(regs[k].status, req, fromParent)
      modifies this`edges
      ensures var asked := AskedFor(old(View()), k, req, fromParent, w);
        edges == if asked == [] then old(edges) else Counted(old(View()), k, asked[0], w)
      ensures (status, ok || fromParent) == Answered(old(View()), k, req, fromParent, w)
    {
      status, ok := regs[k].status, true;
      match req {
        case Active =>
          if regs[k].svid == 0 || !w.sVlan {
            return status, false;
          }
          var actual := if !fromParent && !w.cepActive then NotReady else Active;
          ok := Update(k, actual, w);
          status := if ok then actual else status;
        case NotInService =>
          ok := Update(k, NotInService, w);
          status := if !ok then status else if status == Active && fromParent then NotReady else NotInService;
        case CreateAndGo =>
          ok := false;
        case CreateAndWait =>
          status := NotInService;
        case Destroy =>
          ok := Update(k, Destroy, w);
          status := if ok then NotInService else status;
        case NotReady =>
      }
    }

    /** COMMIT's assignment to the status of a row: neither handler nor update is called. */
    method CommitStatus(k: RegKey, active: bool)
      requires k in regs
      modifies this`regs
      ensures View() == StatusSet(old(View()), k, active)
    {
      regs := regs[k := regs[k].(status := Committed(active))];
    }

    method RowStatusHandler(k: RegKey, req: Status, fromParent: bool, w: World) returns (ok: bool)
      requires k in regs
      modifies this
      ensures View() == Handled(old(View()), k, req, fromParent, w)
      ensures ok == Answered(old(View()), k, req, fromParent, w).1
    {
      if !w.cep || regs[k].status == req || Ignored(regs[k].status, req, fromParent) {
        NothingToDo(View(), k, req, fromParent, w);
        return fromParent || w.cep;
      }
      var status;
      status, ok := Switch(k, req, fromParent, w);
      regs := regs[k := regs[k].(status := status)];
      ok := ok || fromParent;
    }
  }

  // ---- What a handler call comes to ---------------------------------------------------------------

  /** What a call asks its update for, if it asks. */
  function WantOf(req: Status, fromParent: bool, w: World): Status {
    if req == Active && !fromParent && !w.cepActive then NotReady else req
  }

  /** What the update answers: going neither in nor out of active it has nothing to do; else
      customer edge port, C-component and C-VLAN are there, the VLAN takes or gives up the
      edge port as a member if that is found, and the VLAN's row follows. */
  predicate Hears(t: Tables, k: RegKey, want: Status, w: World)
    requires k in t.regs
  {
    (t.regs[k].status == Active) != (want == Active) ==>
      && w.cep && w.component && w.cVlan && w.vlanRow
      && (EdgeKey(k.component, k.port, t.regs[k].svid) in t.edges && w.edge ==> w.members)
  }

  /** From each stored status, for each request: the status the handler stores, and its answer.
      Activation needs an S-VID with an S-VLAN. */
  lemma StatusIs(t: Tables, k: RegKey, req: Status, fromParent: bool, w: World)
    requires k in t.regs && Stored(t.regs[k].status)
    ensures var was := t.regs[k].status;
      var next := Answered(t, k, req, fromParent, w);
      && Handled(t, k, req, fromParent, w).regs == t.regs[k := Reg(t.regs[k].svid, next.0)]
      && next ==
        if !w.cep then (was, fromParent)
        else if was == req || req == NotReady then (was, true)
        else if fromParent && ((req == Active && was == NotInService)
          || (req == NotInService && was == NotReady)) then
          (was, true)
        else if req == CreateAndGo || (req == Active && (t.regs[k].svid == 0 || !w.sVlan)) then (was, fromParent)
        else if req == CreateAndWait then (NotInService, true)
        else if !Hears(t, k, WantOf(req, fromParent, w), w) then (was, fromParent)
        else if req == Active then (if fromParent || w.cepActive then Active else NotReady, true)
        else if req == NotInService && fromParent then (NotReady, true)
        else (NotInService, true)
  {
    var want := WantOf(req, fromParent, w);
    var asked := AskedFor(t, k, req, fromParent, w);
    assert asked == [] || asked == [want];
    assert Updates(t, k, want, w) <==> Hears(t, k, want, w);
  }

  /** The handler is the transition of RowStatus for a port, told what the update answered. */
  lemma HandledIsNext(t: Tables, k: RegKey, req: Status, fromParent: bool, w: World)
    requires k in t.regs && Stored(t.regs[k].status)
    ensures var hears := Hears(t, k, WantOf(req, fromParent, w), w);
      var c := Call(req, fromParent, Env(w.cep, t.regs[k].svid != 0 && w.sVlan, w.cepActive, true, hears));
      Handled(t, k, req, fromParent, w).regs[k].status == Next(Port, t.regs[k].status, Called(c))
  {
    StatusIs(t, k, req, fromParent, w);
  }

  // ---- Conservation ---------------------------------------------------------------------------

  predicate Counts(r: Reg, k: RegKey, e: EdgeKey) {
    r.status == Active && EdgeOf(k, r.svid) == e
  }

  ghost function Members(t: Tables, e: EdgeKey): set<RegKey> {
    set k | k in t.regs && Counts(t.regs[k], k, e)
  }

  /** Every counter is its number of active registrations, as far as 32 bits can tell. */
  ghost predicate Agrees(t: Tables) {
    forall e | e in t.edges :: t.edges[e] == Low32(|Members(t, e)|)
  }

  function Low32(n: nat): nat {
    n % U32
  }

  lemma Low32Moves(n: nat)
    ensures Low32(n + 1) == Inc(Low32(n)) && Low32(n) == Dec(Low32(n + 1)) && Low32(n) != Low32(n + 1)
  {
    assert n == n / U32 * U32 + n % U32;
    if n % U32 == U32 - 1 {
      assert n + 1 == (n / U32 + 1) * U32;
    } else {
      assert (n + 1) / U32 == n / U32;
    }
  }

  ghost function Vids(component: nat, port: nat, n: nat): set<RegKey>
    requires n <= U32
  {
    set v: nat | v < n :: RegKey(component, port, v)
  }

  lemma {:induction false} FewVids(component: nat, port: nat, n: nat)
    requires n <= U32
    ensures |Vids(component, port, n)| <= n
  {
    if n > 0 {
      FewVids(component, port, n - 1);
      assert Vids(component, port, n) == Vids(component, port, n - 1) + {RegKey(component, port, n - 1)};
    }
  }

  /** No port has more registrations than there are C-VIDs. */
  lemma FewMembers(t: Tables, e: EdgeKey)
    ensures |Members(t, e)| <= U32 && |Members(t, e)| <= |t.regs|
  {
    FewVids(e.component, e.port, U32);
    assert forall k | k in Members(t, e) :: k == RegKey(e.component, e.port, k.cvid);
    SubsetCard(Members(t, e), Vids(e.component, e.port, U32));
    SubsetCard(Members(t, e), t.regs.Keys);
  }

  /** A row that changes joins or leaves the members of the edge ports it counts for. */
  lemma MembersAfter(t: Tables, regs: map<RegKey, Reg>, k: RegKey, e: EdgeKey)
    requires t.regs - {k} == regs - {k}
    ensures var was := k in t.regs && Counts(t.regs[k], k, e);
      var now := k in regs && Counts(regs[k], k, e);
      |Members(t.(regs := regs), e)| == |Members(t, e)| + (if now then 1 else 0) - (if was then 1 else 0)
  {
    var before, after := Members(t, e), Members(t.(regs := regs), e);
    forall j | j != k
      ensures j in before <==> j in after
    {
      assert j in t.regs <==> j in t.regs - {k};
      assert j in regs <==> j in regs - {k};
      assert j in t.regs ==> t.regs[j] == (t.regs - {k})[j];
      assert j in regs ==> regs[j] == (regs - {k})[j];
    }
    assert before - {k} == after - {k};
    assert |before - {k}| == |before| - if k in before then 1 else 0;
    assert |after - {k}| == |after| - if k in after then 1 else 0;
  }

  /** A call that takes the registration in or out of active, its edge port there but not
      found: the update succeeds and counts nothing. */
  predicate Overlooks(t: Tables, k: RegKey, req: Status, fromParent: bool, w: World)
    requires k in t.regs
  {
    var asked := AskedFor(t, k, req, fromParent, w);
    && asked != [] && (t.regs[k].status == Active <==> asked[0] != Active)
    && EdgeOf(k, t.regs[k].svid) in t.edges && !w.edge && w.component && w.cVlan && w.vlanRow
  }

  /** A call that takes the registration out of active without its update. */
  predicate Bypasses(t: Tables, k: RegKey, req: Status, w: World)
    requires k in t.regs
  {
    t.regs[k].status == Active && req == CreateAndWait && w.cep && EdgeOf(k, t.regs[k].svid) in t.edges
  }

  /** The events that break the agreement: an edge port added when registrations it should
      count are active already; a registration that an edge port counts changed without its
      update - removed, moved to another S-VID, put to createAndWait, or taken in or out of
      active by a COMMIT; and an update that does not find the edge port that is there. */
  ghost predicate Disturbs(t: Tables, ev: Event) {
    match ev
    case Register(_) => false
    case Unregister(k) => k in t.regs && t.regs[k].status == Active && EdgeOf(k, t.regs[k].svid) in t.edges
    case SetSVid(k, svid) =>
      && k in t.regs && t.regs[k].status == Active && svid != t.regs[k].svid
      && (EdgeOf(k, t.regs[k].svid) in t.edges || EdgeOf(k, svid) in t.edges)
    case Commit(k, active) =>
      && k in t.regs && (t.regs[k].status == Active <==> !active)
      && EdgeOf(k, t.regs[k].svid) in t.edges
    case Handler(k, req, fromParent, w) =>
      k in t.regs && (Bypasses(t, k, req, w) || Overlooks(t, k, req, fromParent, w))
    case AddEdge(e) => e !in t.edges && Low32(|Members(t, e)|) != 0
    case RemoveEdge(_) => false
  }

  /** What a call does to the registration's own counter, as its status goes in or out of
      active. */
  lemma CounterFollows(t: Tables, k: RegKey, req: Status, fromParent: bool, w: World)
    requires k in t.regs
    ensures var u := Handled(t, k, req, fromParent, w);
      var own := EdgeOf(k, t.regs[k].svid);
      var was, now := t.regs[k].status == Active, u.regs[k].status == Active;
      && u.edges.Keys == t.edges.Keys && (forall e | e in t.edges && e != own :: u.edges[e] == t.edges[e])
      && u.regs[k].svid == t.regs[k].svid
      && (own in t.edges ==>
            u.edges[own] == if was == now || Bypasses(t, k, req, w) || Overlooks(t, k, req, fromParent, w)
              then t.edges[own]
                            else if now then Inc(t.edges[own]) else Dec(t.edges[own]))
      && (own in t.edges && (Bypasses(t, k, req, w) || Overlooks(t, k, req, fromParent, w)) ==> was != now)
  {
  }

  lemma HandledAgreesIff(t: Tables, k: RegKey, req: Status, fromParent: bool, w: World)
    requires Agrees(t) && k in t.regs
    ensures Agrees(Handled(t, k, req, fromParent, w)) <==> !Disturbs(t, Handler(k, req, fromParent, w))
  {
    var u := Handled(t, k, req, fromParent, w);
    var own := EdgeOf(k, t.regs[k].svid);
    assert t.regs - {k} == u.regs - {k};
    CounterFollows(t, k, req, fromParent, w);
    forall e | e in t.edges
      ensures e != own ==> u.edges[e] == Low32(|Members(u, e)|)
      ensures e == own ==> (u.edges[e] == Low32(|Members(u, e)|) <==> !Disturbs(t, Handler(k, req, fromParent, w)))
    {
      MembersAfter(t, u.regs, k, e);
      assert Members(u, e) == Members(t.(regs := u.regs), e);
      Low32Moves(|Members(t, e)|);
      Low32Moves(|Members(u, e)|);
    }
  }

  /** A change to one registration outside its handler. */
  lemma EditAgreesIff(t: Tables, regs: map<RegKey, Reg>, k: RegKey)
    requires Agrees(t) && t.regs - {k} == regs - {k}
    ensures Agrees(t.(regs := regs)) <==> forall e | e in t.edges ::
      (k in t.regs && Counts(t.regs[k], k, e)) == (k in regs && Counts(regs[k], k, e))
  {
    forall e | e in t.edges
      ensures t.edges[e] == Low32(|Members(t.(regs := regs), e)|)
         <==> (k in t.regs && Counts(t.regs[k], k, e)) == (k in regs && Counts(regs[k], k, e))
    {
      MembersAfter(t, regs, k, e);
      Low32Moves(|Members(t, e)|);
      Low32Moves(|Members(t.(regs := regs), e)|);
    }
  }

  /** Conservation: an event keeps every edge port's counter equal to its number of active
      registrations if and only if it is not one of those. */
  lemma StepAgreesIff(t: Tables, ev: Event)
    requires Agrees(t)
    ensures Agrees(Step(t, ev)) <==> !Disturbs(t, ev)
  {
    var u := Step(t, ev);
    match ev
    case Register(k) =>
      assert t.regs - {k} == u.regs - {k};
      EditAgreesIff(t, u.regs, k);
    case Unregister(k) =>
      assert t.regs - {k} == u.regs - {k};
      EditAgreesIff(t, u.regs, k);
    case SetSVid(k, svid) =>
      assert t.regs - {k} == u.regs - {k};
      EditAgreesIff(t, u.regs, k);
    case Commit(k, active) =>
      assert t.regs - {k} == u.regs - {k};
      EditAgreesIff(t, u.regs, k);
    case Handler(k, req, fromParent, w) =>
      if k in t.regs {
        HandledAgreesIff(t, k, req, fromParent, w);
      }
    case AddEdge(e) =>
      assert forall f :: Members(u, f) == Members(t, f);
    case RemoveEdge(e) =>
      assert forall f :: Members(u, f) == Members(t, f);
  }

  function Run(t: Tables, events: seq<Event>): Tables {
    if events == [] then t else Step(Run(t, events[..|events| - 1]), events[|events| - 1])
  }

  /** Conservation over runs, starting from empty tables. */
  lemma {:induction false} RunAgrees(events: seq<Event>)
    requires forall i | 0 <= i < |events| :: !Disturbs(Run(Tables(map[], map[]), events[..i]), events[i])
    ensures Agrees(Run(Tables(map[], map[]), events))
  {
    if events != [] {
      var before := events[..|events| - 1];
      assert forall i | 0 <= i < |before| :: events[..i] == before[..i];
      RunAgrees(before);
      StepAgreesIff(Run(Tables(map[], map[]), before), events[|events| - 1]);
    }
  }

  /** While the tables agree, and hold fewer than 2^32 registrations, the counter is the
      number of active registrations itself and an update moves it by one without wrapping. */
  lemma NoWrap(t: Tables, k: RegKey, want: Status, w: World)
    requires Agrees(t) && k in t.regs && |t.regs| < U32
    ensures forall e | e in t.edges :: t.edges[e] == |Members(t, e)|
    ensures var own := EdgeOf(k, t.regs[k].svid);
      own in t.edges ==>
        var moves := (t.regs[k].status == Active <==> want != Active) && Updates(t, k, want, w) && w.edge;
        && (!moves ==> Counted(t, k, want, w)[own] == t.edges[own])
        && (moves && want == Active ==> Counted(t, k, want, w)[own] == t.edges[own] + 1)
        && (moves && want != Active ==> Counted(t, k, want, w)[own] + 1 == t.edges[own])
  {
    forall e | e in t.edges
      ensures t.edges[e] == |Members(t, e)|
    {
      FewMembers(t, e);
    }
    var own := EdgeOf(k, t.regs[k].svid);
    if t.regs[k].status == Active {
      assert k in Members(t, own);
    } else {
      SubsetCard(Members(t, own), t.regs.Keys - {k});
    }
  }

  /** Every collaborator is there and agrees. */
  function Willing(): World {
    World(true, true, true, true, true, true, true, true)
  }

  /** A registration's life: made out of service and without S-VID, given one, activated over
      an edge port that is there, taken down and removed, and the edge port after it. It is
      counted while active, and nothing is left of either. */
  lemma Life(k: RegKey, svid: nat)
    requires svid != 0
    ensures var e := EdgeOf(k, svid);
      var made := Step(Tables(map[], map[]), Register(k));
      var up := Step(Step(Step(made, SetSVid(k, svid)), AddEdge(e)), Handler(k, Active, false, Willing()));
      var down := Step(up, Handler(k, Destroy, false, Willing()));
      && e == EdgeKey(k.component, k.port, svid)
      && made == Tables(map[k := Reg(0, NotInService)], map[])
      && up == Tables(map[k := Reg(svid, Active)], map[e := 1])
      && down == Tables(map[k := Reg(svid, NotInService)], map[e := 0])
      && Step(Step(down, Unregister(k)), RemoveEdge(e)) == Tables(map[], map[])
  {
    var e := EdgeOf(k, svid);
    var ready := Tables(map[k := Reg(svid, NotInService)], map[e := 0]);
    var up := Step(ready, Handler(k, Active, false, Willing()));
    assert up.regs == map[k := Reg(svid, Active)];
    assert up.edges == map[e := 1];
    var down := Step(up, Handler(k, Destroy, false, Willing()));
    assert down.regs == map[k := Reg(svid, NotInService)];
    assert down.edges == map[e := 0];
    var gone := Step(Step(down, Unregister(k)), RemoveEdge(e));
    assert gone.regs == map[];
    assert gone.edges == map[];
  }

  /** An edge port added too late: its counter wraps when the registration goes down. */
  lemma LateEdgePortWraps(w: World)
    requires w.cep && w.component && w.cVlan && w.edge && w.members && w.vlanRow
    ensures var k := RegKey(1, 1, 10);
      var t := Tables(map[k := Reg(5, Active)], map[]);
      var u := Step(Step(t, AddEdge(EdgeKey(1, 1, 5))), Handler(k, NotInService, false, w));
      Agrees(t) && u.edges[EdgeKey(1, 1, 5)] == U32 - 1
  {
  }

  /** An edge-port lookup short of memory: the registration goes active uncounted, and the
      counter wraps when it goes down. */
  lemma OverlookedEdgePortWraps(w: World)
    requires w.cep && w.cepActive && w.sVlan && w.component && w.cVlan && w.edge && w.members && w.vlanRow
    ensures var k := RegKey(1, 1, 10);
      var t := Tables(map[k := Reg(5, NotInService)], map[EdgeKey(1, 1, 5) := 0]);
      var u := Step(t, Handler(k, Active, false, w.(edge := false)));
      var v := Step(u, Handler(k, NotInService, false, w));
      Agrees(t) && u.regs[k].status == Active && !Agrees(u) && v.edges[EdgeKey(1, 1, 5)] == U32 - 1
  {
    var k, e := RegKey(1, 1, 10), EdgeKey(1, 1, 5);
    var t := Tables(map[k := Reg(5, NotInService)], map[e := 0]);
    assert Members(t, e) == {};
    StepAgreesIff(t, Handler(k, Active, false, w.(edge := false)));
  }

  /** An administrator activates a registration by a SET: it is not counted, and a handler
      call that takes it down wraps the counter. */
  lemma CommittedActivationWraps(w: World)
    requires w.cep && w.component && w.cVlan && w.edge && w.members && w.vlanRow
    ensures var k := RegKey(1, 1, 10);
      var t := Tables(map[k := Reg(5, NotInService)], map[EdgeKey(1, 1, 5) := 0]);
      var u := Step(t, Event.Commit(k, true));
      var v := Step(u, Handler(k, NotInService, false, w));
      Agrees(t) && !Agrees(u) && v.edges[EdgeKey(1, 1, 5)] == U32 - 1
  {
    var k, e := RegKey(1, 1, 10), EdgeKey(1, 1, 5);
    var t := Tables(map[k := Reg(5, NotInService)], map[e := 0]);
    assert Members(t, e) == {};
    StepAgreesIff(t, Event.Commit(k, true));
  }
}
