/** The Linktrace Reply table of cfm/ieee8021CfmMib.c: five-part keys in an index tree. */
module LtrTable {
  import opened OrderedIndex
  import opened Wrappers

  datatype Key = Key(mdIndex: nat, maIndex: nat, mepIdentifier: nat, seqNumber: nat, receiveOrder: nat) {
    function Parts(): seq<nat> {
      [mdIndex, maIndex, mepIdentifier, seqNumber, receiveOrder]
    }
  }

  /** dot1agCfmLtrTable_BTreeNodeCmp. */
  function NodeCmp(a: Key, b: Key): int {
    if a.mdIndex < b.mdIndex
       || (a.mdIndex == b.mdIndex && a.maIndex < b.maIndex)
       || (a.mdIndex == b.mdIndex && a.maIndex == b.maIndex && a.mepIdentifier < b.mepIdentifier)
       || (a.mdIndex == b.mdIndex && a.maIndex == b.maIndex && a.mepIdentifier == b.mepIdentifier
         && a.seqNumber < b.seqNumber)
       || (a.mdIndex == b.mdIndex && a.maIndex == b.maIndex && a.mepIdentifier == b.mepIdentifier
         && a.seqNumber == b.seqNumber
           && a.receiveOrder < b.receiveOrder)
    then -1
    else if a.mdIndex == b.mdIndex && a.maIndex == b.maIndex && a.mepIdentifier == b.mepIdentifier
      && a.seqNumber == b.seqNumber
            && a.receiveOrder == b.receiveOrder
    then 0
    else 1
  }

  /** Object identifiers compare part by part: the order GETNEXT promises. */
  predicate LexLess(s: seq<nat>, t: seq<nat>)
    requires |s| == |t|
  {
    s != [] && (s[0] < t[0] || (s[0] == t[0] && LexLess(s[1..], t[1..])))
  }

  /** The comparator is the lexicographic order of the index parts, and 0 for equal keys only. */
  lemma CmpIsLexicographic(a: Key, b: Key)
    ensures NodeCmp(a, b) < 0 <==> LexLess(a.Parts(), b.Parts())
    ensures NodeCmp(a, b) == 0 <==> a == b
    ensures NodeCmp(a, b) > 0 <==> LexLess(b.Parts(), a.Parts())
  {
    UnfoldLess(a.Parts(), b.Parts());
    UnfoldLess(b.Parts(), a.Parts());
  }

  lemma UnfoldLess(s: seq<nat>, t: seq<nat>)
    requires |s| == |t| == 5
    ensures LexLess(s, t) <==>
      || s[0] < t[0]
      || (s[0] == t[0] && s[1] < t[1])
      || (s[0] == t[0] && s[1] == t[1] && s[2] < t[2])
      || (s[0] == t[0] && s[1] == t[1] && s[2] == t[2] && s[3] < t[3])
      || (s[0] == t[0] && s[1] == t[1] && s[2] == t[2] && s[3] == t[3] && s[4] < t[4])
  {
    UnfoldTail(s, t, 4);
    UnfoldTail(s, t, 3);
    UnfoldTail(s, t, 2);
    UnfoldTail(s, t, 1);
  }

  lemma UnfoldTail(s: seq<nat>, t: seq<nat>, i: nat)
    requires i < |s| == |t|
    ensures LexLess(s[i..], t[i..]) <==> s[i] < t[i] || (s[i] == t[i] && LexLess(s[i + 1..], t[i + 1..]))
  {
  }

  lemma CmpOrders()
    ensures Ordering(NodeCmp)
  {
  }

  class LtrTable {
    const tree: Tree<Key>

    ghost predicate Valid()
      reads this, tree
    {
      tree.cmp == NodeCmp && tree.Valid()
    }

    ghost function Rows(): set<Key>
      reads tree
    {
      set k | k in tree.nodes
    }

    constructor ()
      ensures Valid() && fresh(tree) && Rows() == {}
    {
      CmpOrders();
      tree := new Tree<Key>(NodeCmp);
    }

    /** createEntry: no row if memory is short or the key is taken. */
    method CreateEntry(k: Key, mem: bool) returns (created: bool)
      requires Valid()
      modifies tree
      ensures Valid() && created == (mem && k !in old(Rows()))
      ensures Rows() == if created then old(Rows()) + {k} else old(Rows())
    {
      created := false;
      if mem {
        var found := tree.NodeFind(k);
        if !found {
          tree.NodeAdd(k);
          created := true;
        }
      }
    }

    /** removeEntry: nothing to remove is no error. */
    method RemoveEntry(k: Key)
      requires Valid()
      modifies tree
      ensures Valid() && Rows() == old(Rows()) - {k}
    {
      var found := tree.NodeFind(k);
      if found {
        tree.NodeRemove(k);
      }
    }

    /** getNextIndex: the least row above k, whether or not k is a row. A failed allocation
        looks like the end of the table. */
    method GetNextIndex(k: Key, mem: bool) returns (r: Option<Key>)
      requires Valid()
      ensures r == None <==> !mem || forall x | x in Rows() :: !LexLess(k.Parts(), x.Parts())
      ensures r.Some? ==> r.value in Rows() && LexLess(k.Parts(), r.value.Parts())
      ensures r.Some? ==> forall x | x in Rows() :: LexLess(k.Parts(), x.Parts()) ==>
        x == r.value || LexLess(r.value.Parts(), x.Parts())
    {
      forall a, b
        ensures NodeCmp(a, b) < 0 <==> LexLess(a.Parts(), b.Parts())
      {
        CmpIsLexicographic(a, b);
      }
      if !mem {
        return None;
      }
      r := tree.FindNext(k);
    }

    /** The GETNEXT walk over the table. */
    method Walk() returns (visited: seq<Key>)
      requires Valid()
      ensures forall k :: k in visited <==> k in Rows()
      ensures forall i, j | 0 <= i < j < |visited| :: LexLess(visited[i].Parts(), visited[j].Parts())
    {
      visited := tree.Walk();
      forall i, j | 0 <= i < j < |visited|
        ensures LexLess(visited[i].Parts(), visited[j].Parts())
      {
        CmpIsLexicographic(visited[i], visited[j]);
      }
    }
  }
}
