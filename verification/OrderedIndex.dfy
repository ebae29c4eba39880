/** The index trees: an ordered set of keys under a table's comparator. The class states what
    the tables rely on from xBTree; its own representation is an ascending sequence. */
module OrderedIndex {
  import opened Sets
  import opened Wrappers

  /** A comparator in the style of the sources: -1, 0 or 1, with 0 for equal keys only. */
  ghost predicate Ordering<T(!new)>(cmp: (T, T) -> int) {
    && (forall x, y :: cmp(x, y) == 0 <==> x == y)
    && (forall x, y :: cmp(x, y) < 0 <==> cmp(y, x) > 0)
    && (forall x, y, z :: cmp(x, y) < 0 && cmp(y, z) < 0 ==> cmp(x, z) < 0)
  }

  ghost predicate Ascending<T(!new)>(cmp: (T, T) -> int, xs: seq<T>) {
    forall i, j | 0 <= i < j < |xs| :: cmp(xs[i], xs[j]) < 0
  }

  /** y is the least key of xs above k. */
  ghost predicate IsNext<T(!new)>(cmp: (T, T) -> int, xs: seq<T>, k: T, y: T) {
    y in xs && cmp(k, y) < 0 && forall x | x in xs :: cmp(k, x) < 0 ==> x == y || cmp(y, x) < 0
  }

  /** Two ascending sequences of the same keys are the same sequence: "in ascending order,
      each once" leaves a walk no choice. */
  lemma {:induction false} AscendingUnique<T(!new)>(cmp: (T, T) -> int, xs: seq<T>, ys: seq<T>)
    requires Ordering(cmp) && Ascending(cmp, xs) && Ascending(cmp, ys)
    requires forall x :: x in xs <==> x in ys
    ensures xs == ys
  {
    assert ys != [] ==> ys[0] in xs;
    if xs != [] {
      assert xs[0] in ys;
      HeadIsLeast(cmp, xs, ys[0]);
      HeadIsLeast(cmp, ys, xs[0]);
      forall x
        ensures x in xs[1..] <==> x in ys[1..]
      {
        TailMembers(cmp, xs, x);
        TailMembers(cmp, ys, x);
      }
      AscendingUnique(cmp, xs[1..], ys[1..]);
      assert xs == [xs[0]] + xs[1..] && ys == [ys[0]] + ys[1..];
    }
  }

  lemma HeadIsLeast<T(!new)>(cmp: (T, T) -> int, xs: seq<T>, x: T)
    requires Ordering(cmp) && Ascending(cmp, xs) && x in xs
    ensures x == xs[0] || cmp(xs[0], x) < 0
  {
  }

  lemma TailMembers<T(!new)>(cmp: (T, T) -> int, xs: seq<T>, x: T)
    requires Ordering(cmp) && Ascending(cmp, xs) && xs != []
    ensures x in xs[1..] <==> x in xs && x != xs[0]
  {
  }

  lemma FirstAboveIsNext<T(!new)>(cmp: (T, T) -> int, xs: seq<T>, k: T, p: nat)
    requires Ascending(cmp, xs) && p <= |xs|
    requires (forall i | 0 <= i < p :: cmp(k, xs[i]) >= 0) && (forall i | p <= i < |xs| :: cmp(k, xs[i]) < 0)
    ensures p == |xs| <==> forall x | x in xs :: cmp(k, x) >= 0
    ensures p < |xs| ==> IsNext(cmp, xs, k, xs[p])
  {
  }

  class Tree<T(==,!new)> {
    const cmp: (T, T) -> int
    var nodes: seq<T>

    ghost predicate Valid()
      reads this
    {
      Ordering(cmp) && Ascending(cmp, nodes)
    }

    constructor (cmp: (T, T) -> int)
      requires Ordering(cmp)
      ensures Valid() && nodes == [] && this.cmp == cmp
    {
      this.cmp := cmp;
      nodes := [];
    }

    /** The number of keys below k: where k is or would go. */
    method Position(k: T) returns (p: nat)
      requires Valid()
      ensures p <= |nodes|
      ensures forall i | 0 <= i < p :: cmp(nodes[i], k) < 0
      ensures forall i | p <= i < |nodes| :: cmp(nodes[i], k) >= 0
    {
      p := 0;
      while p < |nodes| && cmp(nodes[p], k) < 0
        invariant p <= |nodes| && forall i | 0 <= i < p :: cmp(nodes[i], k) < 0
      {
        p := p + 1;
      }
    }

    method NodeFind(k: T) returns (found: bool)
      requires Valid()
      ensures found <==> k in nodes
    {
      var p := Position(k);
      found := p < |nodes| && cmp(nodes[p], k) == 0;
    }

    method NodeAdd(k: T)
      requires Valid() && k !in nodes
      modifies this
      ensures Valid() && |nodes| == old(|nodes|) + 1
      ensures forall x :: x in nodes <==> x == k || x in old(nodes)
    {
      var p := Position(k);
      nodes := nodes[..p] + [k] + nodes[p..];
    }

    method NodeRemove(k: T)
      requires Valid() && k in nodes
      modifies this
      ensures Valid() && |nodes| == old(|nodes|) - 1
      ensures forall x :: x in nodes <==> x != k && x in old(nodes)
    {
      var p := Position(k);
      assert nodes[p] == k;
      assert nodes == nodes[..p] + [k] + nodes[p + 1..];
      nodes := nodes[..p] + nodes[p + 1..];
    }

    method GetFirst() returns (r: Option<T>)
      requires Valid()
      ensures r == None <==> nodes == []
      ensures r.Some? ==> r.value in nodes && forall x | x in nodes :: x == r.value || cmp(r.value, x) < 0
    {
      r := if nodes == [] then None else Some(nodes[0]);
    }

    /** The least key above k; k itself need not be in the tree. */
    method FindNext(k: T) returns (r: Option<T>)
      requires Valid()
      ensures r == None <==> forall x | x in nodes :: cmp(k, x) >= 0
      ensures r.Some? ==> IsNext(cmp, nodes, k, r.value)
    {
      var p := Position(k);
      if p < |nodes| && cmp(nodes[p], k) == 0 {
        p := p + 1;
      }
      r := if p == |nodes| then None else Some(nodes[p]);
      FirstAboveIsNext(cmp, nodes, k, p);
    }

    /** The iterator hooks: the loop context is the node to be visited next. */
    method GetNextRow(context: T) returns (row: T, next: Option<T>)
      requires Valid() && context in nodes
      ensures row == context
      ensures next == None <==> forall x | x in nodes :: cmp(context, x) >= 0
      ensures next.Some? ==> IsNext(cmp, nodes, context, next.value)
    {
      row := context;
      next := FindNext(context);
    }

    /** A GETNEXT walk: getFirst, then getNext until the context runs out. It ends, and visits
        every row once, in ascending order. */
    method Walk() returns (visited: seq<T>)
      requires Valid()
      ensures Ascending(cmp, visited) && forall x :: x in visited <==> x in nodes
      ensures visited == nodes
    {
      visited := [];
      var context := GetFirst();
      while context.Some?
        invariant Ascending(cmp, visited)
        invariant forall x | x in visited :: x in nodes
        invariant context == None ==> forall x | x in nodes :: x in visited
        invariant context.Some? ==> context.value in nodes
        invariant context.Some? ==> forall x | x in nodes :: x in visited <==> cmp(x, context.value) < 0
        decreases |nodes| - |visited|, context.Some?
      {
        var row;
        var last := context.value;
        assert last !in visited;
        ghost var before := visited;
        row, context := GetNextRow(last);
        visited := visited + [row];
        AscendingFits(visited);
        forall x | x in nodes
          ensures x in visited <==> cmp(x, last) <= 0
        {
        }
      }
      AscendingUnique(cmp, visited, nodes);
    }

    /** An ascending sequence of the tree's keys is no longer than the tree. */
    lemma AscendingFits(xs: seq<T>)
      requires Valid() && forall x | x in xs :: x in nodes
      requires forall i, j | 0 <= i < j < |xs| :: xs[i] != xs[j]
      ensures |xs| <= |nodes|
    {
      DistinctCard(xs);
      DistinctCard(nodes);
      SubsetCard((set x | x in xs), (set x | x in nodes));
    }
  }

  lemma {:induction false} DistinctCard<T>(xs: seq<T>)
    requires forall i, j | 0 <= i < j < |xs| :: xs[i] != xs[j]
    ensures |(set x | x in xs)| == |xs|
  {
    if xs == [] {
      assert (set x | x in xs) == {};
    } else {
      var n := |xs| - 1;
      assert xs == xs[..n] + [xs[n]];
      DistinctCard(xs[..n]);
      assert (set x | x in xs) == (set x | x in xs[..n]) + {xs[n]};
    }
  }
}
