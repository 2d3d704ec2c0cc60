/** The topology as an object: it reserves and inserts agents, climbs by a loop, and descends by recursion over sorted children. */
module TaskTreeObjects {
  import opened Wrappers
  import opened TaskTreeModel
  import opened TaskTreeTheorems
  import opened Sequences

  function InsertAscending(ids: seq<nat>, id: nat): seq<nat> {
    if ids == [] || id < ids[0] then [id] + ids else [ids[0]] + InsertAscending(ids[1..], id)
  }

  lemma PrependAscending(first: nat, rest: seq<nat>)
    requires Ascending(rest) && forall x <- SetOf(rest) :: first < x
    ensures Ascending([first] + rest) && SetOf([first] + rest) == {first} + SetOf(rest)
  {
    assert forall k | 0 <= k < |rest| :: rest[k] in SetOf(rest);
  }

  lemma HeadIsLeast(ids: seq<nat>)
    requires Ascending(ids) && ids != []
    ensures Ascending(ids[1..]) && SetOf(ids) == {ids[0]} + SetOf(ids[1..]) && forall x <- SetOf(ids[1..]) :: ids[0] < x
  {
    assert ids == [ids[0]] + ids[1..];
  }

  lemma {:induction false} InsertSorts(ids: seq<nat>, id: nat)
    requires Ascending(ids) && id !in SetOf(ids)
    ensures Ascending(InsertAscending(ids, id)) && SetOf(InsertAscending(ids, id)) == SetOf(ids) + {id}
  {
    if ids == [] {
    } else {
      HeadIsLeast(ids);
      if id < ids[0] {
        PrependAscending(id, ids);
      } else {
        InsertSorts(ids[1..], id);
        assert ids[0] in SetOf(ids);
        PrependAscending(ids[0], InsertAscending(ids[1..], id));
      }
    }
  }

  predicate OfSession(t: Tree, id: nat, session: string) {
    id in t.nodes && t.nodes[id].session == session
  }

  /** No two agents share a session. */
  predicate OneAgentEach(t: Tree) {
    forall x <- t.nodes, y <- t.nodes | t.nodes[x].session == t.nodes[y].session :: x == y
  }

  lemma EachGrows(t: Tree, ids: seq<nat>, i: nat, floor: nat)
    requires Forest(t) && floor <= t.next && Younger(t, ids, floor) && i < |ids|
    ensures Younger(t, ids[..i], floor) && Younger(t, ids[..i + 1], floor)
    ensures Each(t, ids[..i + 1], floor) == Each(t, ids[..i], floor) + Postorder(t, ids[i])
  {
    assert ids[..i + 1][..i] == ids[..i];
  }

  class TaskTree {
    var nextId: nat
    var nodes: map<nat, Node>

    ghost function State(): Tree
      reads this
    {
      Tree(nextId, nodes)
    }

    constructor ()
      ensures State() == Tree(0, map[])
    {
      nextId, nodes := 0, map[];
    }

    method Reserve(parent: Option<nat>) returns (id: nat, failure: Option<Error>)
      modifies this`nextId
      ensures failure == if KnownParent(old(State()), parent) then None else Some(UnknownParent(parent.value))
      ensures State() == if failure.None? then Reserved(old(State())) else old(State())
      ensures failure.None? <==> parent.None? || parent.value in nodes
      ensures failure.None? ==> id == nextId == old(nextId) + 1
      ensures failure.Some? ==> failure == Some(UnknownParent(parent.value)) && nextId == old(nextId)
    {
      if parent.Some? && parent.value !in nodes {
        return 0, Some(UnknownParent(parent.value));
      }
      nextId := nextId + 1;
      return nextId, None;
    }

    method Insert(id: nat, session: string, parent: Option<nat>) returns (failure: Option<Error>)
      modifies this`nodes
      ensures failure == if KnownParent(old(State()), parent) then None else Some(UnknownParent(parent.value))
      ensures State() == Inserted(old(State()), id, session, parent)
      ensures failure.None? <==> parent.None? || parent.value in old(nodes)
      ensures nodes == if failure.None? then old(nodes)[id := Node(session, parent)] else old(nodes)
    {
      if parent.Some? && parent.value !in nodes {
        return Some(UnknownParent(parent.value));
      }
      nodes := nodes[id := Node(session, parent)];
      return None;
    }

    /** Any agent of a session. */
    method AgentForSession(session: string) returns (found: Option<nat>)
      ensures found.Some? ==> found.value in nodes && nodes[found.value].session == session
      ensures found.None? ==> forall id <- nodes :: nodes[id].session != session
    {
      var rest := nodes.Keys;
      while rest != {}
        invariant rest <= nodes.Keys
        invariant forall id <- nodes.Keys - rest :: nodes[id].session != session
        decreases rest
      {
        var id :| id in rest;
        if nodes[id].session == session {
          return Some(id);
        }
        rest := rest - {id};
      }
      return None;
    }

    /** Climbs from the candidate's parent until the ancestor or the top. */
    method IsDescendant(candidate: nat, ancestor: nat) returns (below: bool)
      requires Forest(State())
      ensures below == Descends(State(), candidate, ancestor)
    {
      var parent := if candidate in nodes then nodes[candidate].parent else None;
      assert candidate in nodes ==> Rooted(State(), candidate);
      while parent.Some?
        invariant parent.Some? ==> parent.value in nodes
        invariant Descends(State(), candidate, ancestor)
          <==> parent.Some? && (parent.value == ancestor || Descends(State(), parent.value, ancestor))
        decreases if parent.Some? then parent.value + 1 else 0
      {
        var id := parent.value;
        if id == ancestor {
          return true;
        }
        assert Rooted(State(), id);
        parent := if id in nodes then nodes[id].parent else None;
      }
      return false;
    }

    /** A session may manage an agent that is known and below its own; a session without an agent may manage any. */
    method Authorize(session: string, id: nat) returns (failure: Option<Error>)
      requires Forest(State())
      ensures failure == Some(UnknownAgent(id)) <==> id !in nodes
      ensures failure.Some? && id in nodes ==>
        && failure.value.NotDescendant? && OfSession(State(), failure.value.caller, session)
        && !Descends(State(), id, failure.value.caller)
      ensures failure.None? && (exists x <- nodes :: OfSession(State(), x, session)) ==>
        exists x <- nodes :: OfSession(State(), x, session) && Descends(State(), id, x)
      ensures OneAgentEach(State()) ==>
        (failure.None? <==> id in nodes && forall x <- nodes :: OfSession(State(), x, session) ==> Descends(State(), id, x))
    {
      if id !in nodes {
        return Some(UnknownAgent(id));
      }
      var caller := AgentForSession(session);
      if caller.Some? {
        var below := IsDescendant(id, caller.value);
        if !below {
          return Some(NotDescendant(caller.value));
        }
      }
      return None;
    }

    /** Collects the agents under a parent in whatever order the map yields them, and sorts them. */
    method SortedUnder(parent: Option<nat>) returns (ids: seq<nat>)
      ensures ids == Sorted(Under(State(), parent))
    {
      ids := [];
      var rest := nodes.Keys;
      while rest != {}
        invariant rest <= nodes.Keys
        invariant Ascending(ids) && SetOf(ids) == set c <- nodes.Keys - rest | nodes[c].parent == parent
        decreases rest
      {
        var id :| id in rest;
        rest := rest - {id};
        if nodes[id].parent == parent {
          assert id !in SetOf(ids);
          InsertSorts(ids, id);
          ids := InsertAscending(ids, id);
        }
      }
      assert nodes.Keys - rest == nodes.Keys;
      SortedIsUnique(ids, Sorted(Under(State(), parent)));
    }

    /** Appends the subtrees of some agents, one after the other. */
    method AppendEach(ids: seq<nat>, order: seq<nat>, ghost floor: nat) returns (order1: seq<nat>)
      requires Forest(State()) && floor <= nextId && Younger(State(), ids, floor)
      ensures order1 == order + Each(State(), ids, floor)
      decreases nextId - floor, 0
    {
      order1 := order;
      for i := 0 to |ids|
        invariant order1 == order + Each(State(), ids[..i], floor)
      {
        EachGrows(State(), ids, i, floor);
        order1 := AppendSubtreePostorder(ids[i], order1);
      }
      assert ids[..|ids|] == ids;
    }

    method AppendSubtreePostorder(id: nat, order: seq<nat>) returns (order1: seq<nat>)
      requires Forest(State()) && id <= nextId
      ensures order1 == order + Postorder(State(), id)
      decreases nextId - id, 1
    {
      var children := SortedUnder(Some(id));
      ChildrenAreYounger(State(), id);
      order1 := AppendEach(children, order, id);
      order1 := order1 + [id];
    }

    /** Lists an agent's subtree, everyone in it once and after everyone below. */
    method SubtreePostorder(id: nat) returns (order: seq<nat>, failure: Option<Error>)
      requires Forest(State())
      ensures failure == if id in nodes then None else Some(UnknownAgent(id))
      ensures failure.None? ==> ListsSubtree(State(), id, order)
      ensures failure.None? ==> forall c :: c in order && c != id <==> Descends(State(), c, id)
    {
      if id !in nodes {
        return [], Some(UnknownAgent(id));
      }
      assert Rooted(State(), id);
      order := AppendSubtreePostorder(id, []);
      failure := None;
      PostorderLists(State(), id);
      forall c
        ensures c in order && c != id <==> Descends(State(), c, id)
      {
        ClimbingIsDescending(State(), c, id);
      }
    }

    method AllInPostorder() returns (order: seq<nat>)
      requires Forest(State())
      ensures order == AllPostorder(State())
      ensures Distinct(order) && DescendantsFirst(State(), order) && SetOf(order) == nodes.Keys
    {
      var roots := SortedUnder(None);
      RootsAreYounger(State());
      order := AppendEach(roots, [], 0);
      AllPostorderIsComplete(State());
    }
  }
}
