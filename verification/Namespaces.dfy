/** The namespace hierarchy: looking a namespace up attaches its parent, looked up in
    turn, and then walks up the attached parents once more. */
module Namespaces {

  /** Namespace identifiers; 0 stands for "no parent". */
  type Id = nat

  class NamespaceInfo {
    const id: Id
    var parent: NamespaceInfo?

    constructor (id: Id, parent: NamespaceInfo?)
      ensures this.id == id && this.parent == parent
    {
      this.id := id;
      this.parent := parent;
    }
  }

  function Pow2(n: nat): (r: nat)
    ensures r >= 1
  {
    if n == 0 then 1 else 2 * Pow2(n - 1)
  }

  ghost function Next(nodes: seq<NamespaceInfo>, i: nat): NamespaceInfo? {
    if i + 1 < |nodes| then nodes[i + 1] else null
  }

  /** `nodes` is a list of objects linked by `parent`, carrying `ids`. */
  ghost predicate Linked(nodes: seq<NamespaceInfo>, ids: seq<Id>)
    reads nodes
  {
    && |nodes| == |ids|
    && forall i :: 0 <= i < |nodes| ==>
         nodes[i].id == ids[i] && nodes[i].parent == Next(nodes, i)
  }

  lemma LinkFront(info: NamespaceInfo, nodes: seq<NamespaceInfo>, ids: seq<Id>)
    requires nodes != [] && info.parent == nodes[0] && Linked(nodes, ids)
    ensures Linked([info] + nodes, [info.id] + ids)
  {
    var all, allIds := [info] + nodes, [info.id] + ids;
    forall i | 0 <= i < |all|
      ensures all[i].id == allIds[i] && all[i].parent == Next(all, i)
    {
      if i > 0 { assert all[i] == nodes[i - 1] && allIds[i] == ids[i - 1]; }
    }
  }

  class NamespaceService {
    /** The parent each known namespace has on the network. */
    const parents: map<Id, Id>
    /** Witness that no namespace is its own ancestor. */
    ghost const rank: Id -> nat
    /** Requests sent so far. */
    var lookups: nat

    constructor (parents: map<Id, Id>, ghost rank: Id -> nat)
      ensures this.parents == parents && this.rank == rank && lookups == 0
    {
      this.parents := parents;
      this.rank := rank;
      lookups := 0;
    }

    ghost predicate Acyclic() {
      forall id :: id in parents && parents[id] != 0 ==> rank(parents[id]) < rank(id)
    }

    /** The namespace and its ancestors, nearest first, up to a root or an unknown namespace. */
    ghost function Chain(id: Id): (r: seq<Id>)
      requires Acyclic()
      ensures r != [] && r[0] == id
      decreases rank(id)
    {
      if id in parents && parents[id] != 0 then [id] + Chain(parents[id]) else [id]
    }

    /** Every lookup up to the root succeeds. */
    ghost predicate Complete(id: Id)
      requires Acyclic()
      decreases rank(id)
    {
      id in parents && (parents[id] != 0 ==> Complete(parents[id]))
    }

    /** Requests made for one namespace: two to the number of its proper ancestors, or one
        per namespace up to the first failing one. */
    ghost function Cost(id: Id): nat
      requires Acyclic()
    {
      if Complete(id) then Pow2(|Chain(id)| - 1) else |Chain(id)|
    }

    /** Requests made to attach the hierarchy of a parent. */
    ghost function HierarchyCost(parent: Id): nat
      requires Acyclic()
    {
      if Complete(parent) then 2 * Pow2(|Chain(parent)| - 1) - 1 else Cost(parent)
    }

    lemma CostStep(id: Id)
      requires Acyclic() && id in parents
      ensures Cost(id) == 1 + if parents[id] == 0 then 0 else HierarchyCost(parents[id])
      ensures Complete(id) && parents[id] != 0 ==> HierarchyCost(id) == Cost(id) + HierarchyCost(parents[id])
    {
    }

    /** Returns the namespace with its full chain of ancestors attached, all of it freshly
        built, or fails exactly when some ancestor cannot be looked up. */
    method GetNamespaceInfo(id: Id) returns (info: NamespaceInfo?, ghost nodes: seq<NamespaceInfo>)
      requires Acyclic()
      modifies this
      ensures info != null <==> Complete(id)
      ensures lookups == old(lookups) + Cost(id)
      ensures info != null ==> fresh(nodes) && nodes != [] && nodes[0] == info && Linked(nodes, Chain(id))
      decreases rank(id) + 1, 0
    {
      hide Cost, HierarchyCost, Linked;
      lookups := lookups + 1;
      info, nodes := null, [];
      if id !in parents {
        UnknownCost(id);
        return;
      }
      CostStep(id);
      var stub: NamespaceInfo? := null;
      if parents[id] != 0 {
        stub := new NamespaceInfo(parents[id], null);
      }
      var found := new NamespaceInfo(id, stub);
      var ok, chain := BuildNamespaceHierarchy(found);
      if ok {
        info, nodes := found, chain;
        assert nodes == [nodes[0]] + nodes[1..];
      }
    }

    lemma UnknownCost(id: Id)
      requires Acyclic() && id !in parents
      ensures Cost(id) == 1
    {
    }

    /** Replaces the parent of `info` by a looked-up one and goes on from there. */
    method BuildNamespaceHierarchy(info: NamespaceInfo) returns (ok: bool, ghost nodes: seq<NamespaceInfo>)
      requires Acyclic()
      modifies this, info
      ensures old(info.parent) == null ==> ok && lookups == old(lookups) && Linked(nodes, [info.id])
      ensures old(info.parent) != null && old(info.parent).id == 0 ==>
                ok && lookups == old(lookups) && info.parent == old(info.parent)
      ensures old(info.parent) != null && old(info.parent).id != 0 ==>
                var parent := old(info.parent).id;
                && (ok <==> Complete(parent))
                && lookups == old(lookups) + HierarchyCost(parent)
                && (ok ==> Linked(nodes, [info.id] + Chain(parent)))
      ensures ok ==> nodes != [] && nodes[0] == info && fresh(nodes[1..])
      decreases if info.parent == null then 0 else rank(info.parent.id) + 1, 1
    {
      ok, nodes := true, [info];
      if info.parent == null || info.parent.id == 0 { return; }
      var parent := info.parent.id;
      ChainNext(parent);
      HierarchyStep(parent);
      hide *;
      var found, above := GetNamespaceInfo(parent);
      if found == null {
        ok := false;
        return;
      }
      LinkedParent(above, Chain(parent));
      info.parent := found;
      ghost var chain, up := Chain(parent), found.parent;
      assert up != null ==> up.id == parents[parent] != 0;
      assert chain == if up == null then [found.id] else [found.id] + Chain(up.id);
      ghost var rest: seq<NamespaceInfo>;
      ok, rest := BuildNamespaceHierarchy(found);
      if ok {
        assert Linked(rest, chain);
        LinkFront(info, rest, chain);
        assert rest == [found] + rest[1..];
        nodes := [info] + rest;
        assert nodes[1..] == rest;
      }
    }

    lemma ChainNext(id: Id)
      requires Acyclic()
      ensures |Chain(id)| > 1 ==> id in parents && parents[id] == Chain(id)[1] != 0 && rank(parents[id]) < rank(id)
      ensures Complete(id) ==> id in parents && (|Chain(id)| == 1 <==> parents[id] == 0)
      ensures Complete(id) && |Chain(id)| > 1 ==> Complete(parents[id]) && Chain(id) == [id] + Chain(parents[id])
    {
    }

    lemma HierarchyStep(id: Id)
      requires Acyclic()
      ensures HierarchyCost(id) ==
              Cost(id) + if Complete(id) && parents[id] != 0 then HierarchyCost(parents[id]) else 0
    {
      hide Cost, HierarchyCost, Chain;
      if !Complete(id) {
        FailedCost(id);
      } else {
        CostStep(id);
        if parents[id] == 0 { RootCost(id); }
      }
    }

    lemma FailedCost(id: Id)
      requires Acyclic() && !Complete(id)
      ensures HierarchyCost(id) == Cost(id)
    {
    }

    lemma RootCost(id: Id)
      requires Acyclic() && Complete(id) && parents[id] == 0
      ensures HierarchyCost(id) == Cost(id)
    {
    }
  }

  lemma LinkedParent(nodes: seq<NamespaceInfo>, ids: seq<Id>)
    requires nodes != [] && Linked(nodes, ids)
    ensures nodes[0].id == ids[0]
    ensures |ids| == 1 ==> nodes[0].parent == null
    ensures |ids| > 1 ==> nodes[0].parent != null && nodes[0].parent.id == ids[1]
  {
    if |ids| > 1 { assert nodes[1].id == ids[1]; }
  }
}
