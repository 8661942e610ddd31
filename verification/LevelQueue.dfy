/** The linked queue of AudioAlarm/queue.c: nodes on the heap, with front, rear and size changed in place.
  It refines a sequence under every order of operations, and frees every node it drops exactly once.
 */
module LevelQueue {

  class Node {
    var data: real
    var next: Node?

    constructor (data: real)
      ensures this.data == data && next == null
    {
      this.data, next := data, null;
    }
  }

  class Queue {
    var front: Node?
    var rear: Node?
    var size: int
    /** The linked nodes in order, and those that have been freed. */
    ghost var nodes: seq<Node>
    ghost var freed: set<Node>

    ghost predicate Valid()
      reads this, nodes
    {
      && size == |nodes|
      && (size == 0 ==> front == null && rear == null)
      && (size > 0 ==> front == nodes[0] && rear == nodes[size - 1])
      && (forall i :: 0 <= i < size - 1 ==> nodes[i].next == nodes[i + 1])
      && (size > 0 ==> nodes[size - 1].next == null)
      && (forall i, k :: 0 <= i < k < size ==> nodes[i] != nodes[k])
      && (forall i :: 0 <= i < size ==> nodes[i] !in freed)
    }

    ghost function Contents(): (s: seq<real>)
      reads this, nodes
      ensures |s| == |nodes|
    {
      seq(|nodes|, i requires 0 <= i < |nodes| reads this, nodes => nodes[i].data)
    }

    constructor ()
      ensures Valid() && Contents() == [] && nodes == [] && freed == {}
    {
      front, rear, size := null, null, 0;
      nodes, freed := [], {};
    }

    predicate IsEmpty()
      reads this
    {
      front == null && rear == null && size == 0
    }

    ghost method Free(pnode: Node)
      requires pnode !in freed
      modifies `freed
      ensures freed == old(freed) + {pnode}
    {
      freed := freed + {pnode};
    }

    /** Fails, changing nothing, when there is no memory for a node. */
    method EnQueue(item: real, memory: bool) returns (ok: bool)
      requires Valid()
      modifies this, if nodes == [] then {} else {nodes[|nodes| - 1]}
      ensures Valid() && ok == memory && freed == old(freed)
      ensures Contents() == if ok then old(Contents()) + [item] else old(Contents())
      ensures if ok then
                |nodes| == |old(nodes)| + 1 && nodes[..|old(nodes)|] == old(nodes) && fresh(nodes[|old(nodes)|])
              else nodes == old(nodes)
    {
      if !memory {
        return false;
      }
      ghost var before := Contents();
      var pnode := new Node(item);
      if IsEmpty() {
        front := pnode;
      } else {
        rear.next := pnode;
      }
      rear := pnode;
      size := size + 1;
      nodes := nodes + [pnode];
      assert forall i :: 0 <= i < |before| ==> nodes[i].data == before[i];
      return true;
    }

    /** Drops the front; fails when there is none. */
    method DeQueue() returns (ok: bool, item: real)
      requires Valid()
      modifies this
      ensures Valid() && ok == (old(Contents()) != [])
      ensures ok ==> item == old(Contents())[0]
      ensures ok ==> Contents() == old(Contents())[1..]
      ensures ok ==> nodes == old(nodes)[1..] && freed == old(freed) + {old(nodes)[0]}
      ensures !ok ==> Contents() == old(Contents()) && nodes == old(nodes) && freed == old(freed)
    {
      var pnode := front;
      item := 0.0;
      if !IsEmpty() && pnode != null {
        item := pnode.data;
        size := size - 1;
        front := pnode.next;
        Free(pnode);
        if size == 0 {
          rear := null;
        }
        nodes := nodes[1..];
        ok := true;
      } else {
        ok := false;
      }
    }

    /** Frees everything that is queued, and nothing else. */
    method ClearQueue()
      requires Valid()
      modifies this
      ensures Valid() && Contents() == [] && nodes == []
      ensures freed == old(freed) + set x | x in old(nodes)
    {
      ghost var before := nodes;
      ghost var k := 0;
      while !IsEmpty()
        invariant Valid() && 0 <= k <= |before| && nodes == before[k..]
        invariant freed == old(freed) + set x | x in before[..k]
        decreases |nodes|
      {
        assert before[..k + 1] == before[..k] + [before[k]];
        var _, _ := DeQueue();
        k := k + 1;
      }
      assert before[..k] == before;
    }

    method GetFront() returns (ok: bool, item: real)
      requires Valid()
      ensures ok == (Contents() != []) && (ok ==> item == Contents()[0])
    {
      ok, item := !IsEmpty(), 0.0;
      if ok {
        item := front.data;
      }
    }

    method GetRear() returns (ok: bool, item: real)
      requires Valid()
      ensures ok == (Contents() != []) && (ok ==> item == Contents()[|Contents()| - 1])
    {
      ok, item := !IsEmpty(), 0.0;
      if ok {
        item := rear.data;
      }
    }

    /** How many queued levels are above both limits, by following the links. */
    method CountAbove(limit0: real, limit1: real) returns (count: nat)
      requires Valid()
      ensures count == Above(Contents(), limit0, limit1)
    {
      var i, pnode := size, front;
      count := 0;
      ghost var k := 0;
      ghost var s := Contents();
      while i > 0
        invariant 0 <= i <= size && k == size - i
        invariant pnode == if k < size then nodes[k] else null
        invariant count == Above(s[..k], limit0, limit1)
      {
        AboveMore(s, k, limit0, limit1);
        if pnode.data > limit0 && pnode.data > limit1 {
          count := count + 1;
        }
        pnode := pnode.next;
        i := i - 1;
        k := k + 1;
      }
      assert s[..k] == s;
    }
  }

  function Above(s: seq<real>, limit0: real, limit1: real): nat {
    if s == [] then 0
    else Above(s[..|s| - 1], limit0, limit1) + if s[|s| - 1] > limit0 && s[|s| - 1] > limit1 then 1 else 0
  }

  lemma AboveMore(s: seq<real>, k: nat, limit0: real, limit1: real)
    requires k < |s|
    ensures Above(s[..k + 1], limit0, limit1)
            == Above(s[..k], limit0, limit1) + if s[k] > limit0 && s[k] > limit1 then 1 else 0
  {
    assert s[..k + 1][..k] == s[..k];
  }
}
