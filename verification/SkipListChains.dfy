/** How a single link store changes a layer. */
module SkipListChains {
  import opened SkipListState
  import opened SkipListSteps

  predicate Listed(nodes: seq<Node>, n: nat) {
    n < |nodes| && !nodes[n].isHead
  }

  ghost predicate AllListed(nodes: seq<Node>, ids: seq<nat>) {
    forall i | 0 <= i < |ids| :: Listed(nodes, ids[i])
  }

  /** Sound links make a chain strictly sorted. */
  lemma ChainSorted(nodes: seq<Node>, head: nat, l: nat, ids: seq<nat>)
    requires NodesOk(nodes) && IsChain(nodes, head, l, ids) && AllListed(nodes, ids)
    ensures IsSorted(nodes, ids)
  {
    forall i, j | 0 <= i < j < |ids|
      ensures nodes[ids[i]].key < nodes[ids[j]].key
    {
      ChainOrder(nodes, head, l, ids, i, j);
    }
  }

  lemma {:induction false} ChainOrder(nodes: seq<Node>, head: nat, l: nat, ids: seq<nat>, i: nat, j: nat)
    requires NodesOk(nodes) && IsChain(nodes, head, l, ids) && AllListed(nodes, ids) && i < j < |ids|
    ensures nodes[ids[i]].key < nodes[ids[j]].key
  {
    assert HasLink(nodes, Before(head, ids, j), l, LinkAt(ids, j));
    assert Listed(nodes, ids[j - 1]);
    assert NodeOk(nodes, ids[j - 1]);
    assert LinkOk(nodes, ids[j - 1], l);
    if i < j - 1 { ChainOrder(nodes, head, l, ids, i, j - 1); }
  }

  /** Changing nodes off the chain, or their other layers, does not change the chain. */
  lemma ChainStays(nodes: seq<Node>, nodes': seq<Node>, head: nat, l: nat, ids: seq<nat>)
    requires IsChain(nodes, head, l, ids) && |nodes| <= |nodes'|
    requires forall n | 0 <= n < |nodes| && (n == head || n in ids) && l < |nodes[n].skip| ::
               l < |nodes'[n].skip| && nodes'[n].skip[l] == nodes[n].skip[l]
    ensures IsChain(nodes', head, l, ids)
  {
  }

  /** Where a node stands in a chain. */
  lemma Position(nodes: seq<Node>, head: nat, l: nat, ids: seq<nat>, pred: nat) returns (i: nat)
    requires IsChain(nodes, head, l, ids) && (pred == head || pred in ids)
    ensures i <= |ids| && Before(head, ids, i) == pred && HasLink(nodes, pred, l, LinkAt(ids, i))
    ensures i == if pred == head then 0 else IndexOf(ids, pred) + 1
  {
    i := if pred == head then 0 else IndexOf(ids, pred) + 1;
    assert HasLink(nodes, Before(head, ids, i), l, LinkAt(ids, i));
  }

  lemma ChainInsert(nodes: seq<Node>, head: nat, l: nat, ids: seq<nat>, pred: nat, node: nat)
    requires IsChain(nodes, head, l, ids) && IsSorted(nodes, ids) && head !in ids
    requires pred == head || pred in ids
    requires node < |nodes| && node != head && node !in ids && l < |nodes[node].skip|
    requires HasLink(nodes, pred, l, nodes[node].skip[l])
    ensures IsChain(SetSkip(nodes, pred, l, To(node)), head, l, InsertAfter(head, ids, pred, node))
  {
    var nodes' := SetSkip(nodes, pred, l, To(node));
    var i := Position(nodes, head, l, ids, pred);
    var ids' := ids[..i] + [node] + ids[i..];
    assert InsertAfter(head, ids, pred, node) == ids';
    forall j: nat | j <= |ids'|
      ensures HasLink(nodes', Before(head, ids', j), l, LinkAt(ids', j))
    {
      InsertedLink(nodes, head, l, ids, node, i, j);
    }
  }

  /** The j-th link after a node was put in at position i. */
  lemma InsertedLink(nodes: seq<Node>, head: nat, l: nat, ids: seq<nat>, node: nat, i: nat, j: nat)
    requires IsChain(nodes, head, l, ids) && IsSorted(nodes, ids) && head !in ids && i <= |ids| && j <= |ids| + 1
    requires node < |nodes| && node != head && node !in ids && l < |nodes[node].skip|
    requires HasLink(nodes, Before(head, ids, i), l, nodes[node].skip[l]) && nodes[node].skip[l] == LinkAt(ids, i)
    ensures
      var ids' := ids[..i] + [node] + ids[i..];
      HasLink(SetSkip(nodes, Before(head, ids, i), l, To(node)), Before(head, ids', j), l, LinkAt(ids', j))
  {
    hide IsChain, IsSorted;
    if j < i {
      LinkOf(nodes, head, l, ids, j);
      Distinct(nodes, head, ids, j, i);
    } else if j > i + 1 {
      LinkOf(nodes, head, l, ids, j - 1);
      Distinct(nodes, head, ids, i, j - 1);
    }
  }

  lemma LinkOf(nodes: seq<Node>, head: nat, l: nat, ids: seq<nat>, j: nat)
    requires IsChain(nodes, head, l, ids) && j <= |ids|
    ensures HasLink(nodes, Before(head, ids, j), l, LinkAt(ids, j))
  {
  }

  lemma Distinct(nodes: seq<Node>, head: nat, ids: seq<nat>, i: nat, j: nat)
    requires IsSorted(nodes, ids) && head !in ids && i < j <= |ids|
    ensures Before(head, ids, i) != Before(head, ids, j)
  {
  }

  lemma WithoutMembers(nodes: seq<Node>, ids: seq<nat>, victim: nat)
    requires IsSorted(nodes, ids)
    ensures forall n: nat :: n in Without(ids, victim) <==> n in ids && n != victim
  {
  }

  lemma ChainRemove(nodes: seq<Node>, head: nat, l: nat, ids: seq<nat>, pred: nat, victim: nat)
    requires IsChain(nodes, head, l, ids) && IsSorted(nodes, ids) && head !in ids
    requires (pred == head || pred in ids) && victim in ids && HasLink(nodes, pred, l, To(victim))
    requires victim < |nodes| && l < |nodes[victim].skip|
    ensures IsChain(SetSkip(nodes, pred, l, nodes[victim].skip[l]), head, l, Without(ids, victim))
  {
    hide IsSorted;
    var i := Position(nodes, head, l, ids, pred);
    SameIndex(nodes, ids, i, victim);
    assert HasLink(nodes, Before(head, ids, i + 1), l, LinkAt(ids, i + 1));
    ChainCut(nodes, head, l, ids, i, SetSkip(nodes, pred, l, nodes[victim].skip[l]), ids[..i] + ids[i + 1..]);
  }

  /** Leading the link before position i past it. */
  lemma ChainCut(nodes: seq<Node>, head: nat, l: nat, ids: seq<nat>, i: nat, nodes': seq<Node>, ids': seq<nat>)
    requires IsChain(nodes, head, l, ids) && IsSorted(nodes, ids) && head !in ids && i < |ids|
    requires HasLink(nodes, ids[i], l, LinkAt(ids, i + 1)) && HasLink(nodes, Before(head, ids, i), l, To(ids[i]))
    requires nodes' == SetSkip(nodes, Before(head, ids, i), l, LinkAt(ids, i + 1)) && ids' == ids[..i] + ids[i + 1..]
    ensures IsChain(nodes', head, l, ids')
  {
    forall j: nat | j <= |ids'|
      ensures HasLink(nodes', Before(head, ids', j), l, LinkAt(ids', j))
    {
      if j < i {
        assert HasLink(nodes, Before(head, ids, j), l, LinkAt(ids, j));
        Distinct(nodes, head, ids, j, i);
      } else if j > i {
        assert HasLink(nodes, Before(head, ids, j + 1), l, LinkAt(ids, j + 1));
        Distinct(nodes, head, ids, i, j + 1);
      }
    }
  }

  lemma SameIndex(nodes: seq<Node>, ids: seq<nat>, i: nat, n: nat)
    requires IsSorted(nodes, ids) && i < |ids| && ids[i] == n
    ensures IndexOf(ids, n) == i
  {
  }
}
