/** The CNP table of bridge/ieee8021PbMib.c and the search an edge port makes in it: the
    customer network port of its component serving its C-component and S-VID. */
module CnpTable {
  import opened OrderedIndex
  import opened Wrappers

  datatype Key = Key(component: nat, port: nat)

  datatype Cnp = Cnp(cComponent: nat, sVid: nat)

  /** ieee8021PbCnpTable_BTreeNodeCmp. */
  function NodeCmp(a: Key, b: Key): int {
    if a.component < b.component || (a.component == b.component && a.port < b.port) then -1
    else if a.component == b.component && a.port == b.port then 0
    else 1
  }

  /** b comes after (component, port) in the index. */
  predicate Follows(component: nat, port: nat, b: Key) {
    component < b.component || (component == b.component && port < b.port)
  }

  /** The port index of the search is a 16-bit variable. */
  function U16(n: nat): (r: nat)
    ensures n <= 0xFFFF ==> r == n
  {
    n % 0x1_0000
  }

  lemma CmpOrders()
    ensures Ordering(NodeCmp)
  {
  }

  // ---- The table as a map, and what the search looks for in it --------------------------------

  /** What an edge port asks for. */
  datatype Want = Want(component: nat, cComponent: nat, sVid: nat)

  predicate Serves(rows: map<Key, Cnp>, k: Key, w: Want)
    requires k in rows
  {
    k.component == w.component && rows[k].cComponent == w.cComponent && rows[k].sVid == w.sVid
  }

  /** k is the row the index has right after (component, port). */
  ghost predicate IsNextRow(rows: map<Key, Cnp>, component: nat, port: nat, k: Key) {
    && k in rows && Follows(component, port, k)
    && forall j | j in rows && Follows(component, port, j) :: j == k || Follows(k.component, k.port, j)
  }

  ghost predicate NothingFollows(rows: map<Key, Cnp>, component: nat, port: nat) {
    forall j | j in rows :: !Follows(component, port, j)
  }

  /** No row at a positive port up to this one serves. Port 0 is where the search starts from
      and never looks. */
  ghost predicate NoneUpTo(rows: map<Key, Cnp>, port: nat, w: Want) {
    forall k | k in rows && 0 < k.port <= port :: !Serves(rows, k, w)
  }

  ghost predicate NoneServes(rows: map<Key, Cnp>, w: Want) {
    forall k | k in rows && 0 < k.port :: !Serves(rows, k, w)
  }

  ghost predicate IsLeastServing(rows: map<Key, Cnp>, k: Key, w: Want) {
    && k in rows && 0 < k.port && Serves(rows, k, w)
    && forall j | j in rows && 0 < j.port && Serves(rows, j, w) :: k.port <= j.port
  }

  /** A row of the component that the search would pass over, at a port its variable cannot
      hold. */
  predicate Trap(rows: map<Key, Cnp>, k: Key, w: Want)
    requires k in rows
  {
    k.component == w.component && !Serves(rows, k, w) && k.port > 0xFFFF
  }

  /** Before every trap there is a row that serves. */
  ghost predicate Ends(rows: map<Key, Cnp>, w: Want) {
    forall k | k in rows && Trap(rows, k, w) :: exists j :: j in rows && Serves(rows, j, w) && 0 < j.port < k.port
  }

  lemma SearchAdvances(rows: map<Key, Cnp>, port: nat, next: Key, w: Want)
    requires Ends(rows, w) && NoneUpTo(rows, port, w) && IsNextRow(rows, w.component, port, next)
    requires next.component == w.component && !Serves(rows, next, w)
    ensures NoneUpTo(rows, next.port, w) && port < next.port <= 0xFFFF
  {
    forall k | k in rows && 0 < k.port <= next.port
      ensures !Serves(rows, k, w)
    {
      assert k.component == w.component && k.port > port ==> Follows(w.component, port, k);
    }
  }

  lemma SearchFinds(rows: map<Key, Cnp>, port: nat, next: Key, w: Want)
    requires NoneUpTo(rows, port, w) && IsNextRow(rows, w.component, port, next)
    requires Serves(rows, next, w)
    ensures IsLeastServing(rows, next, w)
  {
  }

  lemma SearchFails(rows: map<Key, Cnp>, port: nat, next: Option<Key>, w: Want)
    requires NoneUpTo(rows, port, w)
    requires if next.Some? then IsNextRow(rows, w.component, port, next.value) && next.value.component != w.component
             else NothingFollows(rows, w.component, port)
    ensures NoneServes(rows, w)
  {
    forall k | k in rows && 0 < k.port
      ensures !Serves(rows, k, w)
    {
      assert k.component == w.component && k.port > port ==> Follows(w.component, port, k);
    }
  }

  // ---- Where a trap comes first the search never ends ---------------------------------------------

  lemma Least(ks: set<Key>) returns (k: Key)
    requires ks != {}
    ensures k in ks && forall j | j in ks :: j == k || Follows(k.component, k.port, j)
  {
    var any :| any in ks;
    k := any;
    if ks == {any} {
      assert forall j | j in ks :: j == any;
    } else {
      assert ks - {any} != {} by {
        assert ks == (ks - {any}) + {any};
      }
      var l := Least(ks - {any});
      k := if Follows(l.component, l.port, any) then l else any;
      forall j | j in ks
        ensures j == k || Follows(k.component, k.port, j)
      {
        assert j == any || j in ks - {any};
      }
    }
  }

  /** Where the search looks on from after these rows. */
  function After(ks: seq<Key>): nat {
    if ks == [] then 0 else U16(ks[|ks| - 1].port)
  }

  /** The search is on these rows, one after the other, and goes on past each of them. */
  ghost predicate Passes(rows: map<Key, Cnp>, w: Want, ks: seq<Key>) {
    ks == [] ||
      var before, k := ks[..|ks| - 1], ks[|ks| - 1];
      && Passes(rows, w, before) && IsNextRow(rows, w.component, After(before), k)
      && k.component == w.component && !Serves(rows, k, w)
  }

  /** With memory for every lookup the search has no choice. */
  lemma {:induction false} PassesUnique(rows: map<Key, Cnp>, w: Want, ks: seq<Key>, ls: seq<Key>)
    requires Passes(rows, w, ks) && Passes(rows, w, ls) && |ks| == |ls|
    ensures ks == ls
  {
    if ks != [] {
      var n := |ks| - 1;
      PassesUnique(rows, w, ks[..n], ls[..n]);
      assert ks == ks[..n] + [ks[n]] && ls == ls[..n] + [ls[n]];
    }
  }

  /** Before such a trap the search always finds a row to pass. */
  lemma NextIsPassed(rows: map<Key, Cnp>, w: Want, trap: Key, port: nat) returns (next: Key)
    requires trap in rows && trap.component == w.component && !Serves(rows, trap, w) && port < trap.port
    requires forall j | j in rows && 0 < j.port < trap.port :: !Serves(rows, j, w)
    ensures IsNextRow(rows, w.component, port, next) && next.component == w.component && !Serves(rows, next, w)
  {
    var after := set k | k in rows && Follows(w.component, port, k);
    assert trap in after;
    next := Least(after);
    assert next == trap || Follows(next.component, next.port, trap);
  }

  /** With a trap that no serving row comes before, the search passes any number of rows: given
      the memory for its lookups it goes round for ever. */
  lemma {:induction false} SearchNeverEnds(rows: map<Key, Cnp>, w: Want, n: nat) returns (ks: seq<Key>)
    requires !Ends(rows, w)
    ensures |ks| == n && Passes(rows, w, ks)
  {
    ks := [];
    if n > 0 {
      var before := SearchNeverEnds(rows, w, n - 1);
      var trap :| trap in rows && Trap(rows, trap, w) && !exists j ::
        j in rows && Serves(rows, j, w) && 0 < j.port < trap.port;
      var next := NextIsPassed(rows, w, trap, After(before));
      ks := before + [next];
      assert ks[..n - 1] == before;
    }
  }

  /** Such a trap, at port 65536: the search is back at port 0 and finds it again. */
  lemma WidePortLoops(component: nat)
    ensures var wide := Key(component, 0x1_0000);
      U16(wide.port) == 0 && IsNext(NodeCmp, [wide], Key(component, U16(wide.port)), wide)
  {
  }

  class CnpTable {
    const tree: Tree<Key>
    var rows: map<Key, Cnp>

    ghost predicate Valid()
      reads this, tree
    {
      tree.cmp == NodeCmp && tree.Valid() && forall k :: k in tree.nodes <==> k in rows
    }

    constructor ()
      ensures Valid() && rows == map[] && fresh(tree)
    {
      CmpOrders();
      tree := new Tree<Key>(NodeCmp);
      rows := map[];
    }

    /** createEntry: no row if memory is short or the key is taken. */
    method CreateEntry(k: Key, mem: bool) returns (created: bool)
      requires Valid()
      modifies this`rows, tree
      ensures Valid() && created == (mem && k !in old(rows))
      ensures rows == if created then old(rows)[k := Cnp(0, 0)] else old(rows)
    {
      created := false;
      if mem {
        var found := tree.NodeFind(k);
        if !found {
          tree.NodeAdd(k);
          rows := rows[k := Cnp(0, 0)];
          created := true;
        }
      }
    }

    /** A lookup allocates a temporary row; when that fails it answers as if nothing followed. */
    method GetNextIndex(component: nat, port: nat, mem: bool) returns (r: Option<Key>)
      requires Valid()
      ensures r == None <==> !mem || NothingFollows(rows, component, port)
      ensures r.Some? ==> IsNextRow(rows, component, port, r.value)
    {
      if !mem {
        return None;
      }
      r := tree.FindNext(Key(component, port));
      assert forall a: Key, b: Key :: NodeCmp(a, b) < 0 <==> Follows(a.component, a.port, b);
    }

    /** The search loop. Where every trap has a serving row before it, it ends, whatever the
        memory, and finds the least-port row that serves if there is one. It finds none only
        if none serves, or a lookup ran out of memory (`mem(i)` tells whether lookup i is
        given its memory). Elsewhere it may not end, see SearchNeverEnds. */
    method Search(w: Want, mem: nat -> bool) returns (found: Option<Key>)
      requires Valid() && Ends(rows, w)
      ensures found.Some? ==> IsLeastServing(rows, found.value, w)
      ensures found.Some? ==>
        && found.value in rows && found.value.component == w.component
          && rows[found.value] == Cnp(w.cComponent, w.sVid)
        && forall k | k in rows && 0 < k.port < found.value.port && k.component == w.component ::
             rows[k] != Cnp(w.cComponent, w.sVid)
      ensures found == None && (forall i :: mem(i)) ==>
        forall k | k in rows && 0 < k.port && k.component == w.component :: rows[k] != Cnp(w.cComponent, w.sVid)
    {
      var portIndex, lookups := 0, 0;
      found := GetNextIndex(w.component, portIndex, mem(lookups));
      while found.Some? && found.value.component == w.component && !Serves(rows, found.value, w)
        invariant portIndex <= 0xFFFF && NoneUpTo(rows, portIndex, w)
        invariant found.Some? ==> IsNextRow(rows, w.component, portIndex, found.value)
        invariant found == None ==> !mem(lookups) || NothingFollows(rows, w.component, portIndex)
        decreases 0x1_0000 - portIndex
      {
        SearchAdvances(rows, portIndex, found.value, w);
        portIndex := U16(found.value.port);
        lookups := lookups + 1;
        found := GetNextIndex(w.component, portIndex, mem(lookups));
      }
      if found.Some? && found.value.component == w.component {
        SearchFinds(rows, portIndex, found.value, w);
      } else {
        if found.Some? || mem(lookups) {
          SearchFails(rows, portIndex, found, w);
        }
        found := None;
      }
    }
  }
}
