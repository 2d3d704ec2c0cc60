/**
 * The subagent topology: every agent knows its parent, permissions are decided by climbing, and closing order by descending.
 */
module TaskTreeModel {
  import opened Wrappers
  import opened Sequences

  datatype Node = Node(session: string, parent: Option<nat>)

  datatype Tree = Tree(next: nat, nodes: map<nat, Node>)

  datatype Error = UnknownParent(id: nat) | UnknownAgent(id: nat) | NotDescendant(caller: nat)

  predicate KnownParent(t: Tree, parent: Option<nat>) {
    parent.Some? ==> parent.value in t.nodes
  }

  function Reserved(t: Tree): Tree {
    t.(next := t.next + 1)
  }

  function Inserted(t: Tree, id: nat, session: string, parent: Option<nat>): Tree {
    if KnownParent(t, parent) then t.(nodes := t.nodes[id := Node(session, parent)]) else t
  }

  /** Parents are present and older than their children, and every id has been issued. */
  predicate Rooted(t: Tree, id: nat)
    requires id in t.nodes
  {
    && 1 <= id <= t.next
    && (t.nodes[id].parent.Some? ==> t.nodes[id].parent.value in t.nodes && t.nodes[id].parent.value < id)
  }

  predicate Forest(t: Tree) {
    forall id <- t.nodes :: Rooted(t, id)
  }

  predicate ChildOf(t: Tree, c: nat, p: nat) {
    c in t.nodes && t.nodes[c].parent == Some(p)
  }

  /** Climbing: `a` is the parent of `c`, or its parent's parent, and so on. */
  predicate Descends(t: Tree, c: nat, a: nat)
    requires Forest(t)
    decreases c
  {
    if c !in t.nodes || t.nodes[c].parent.None? then false
    else
      var p := t.nodes[c].parent.value;
      assert Rooted(t, c);
      p == a || Descends(t, p, a)
  }

  // ------------------------------------------------------------------ sorted sets

  lemma SetOfAppend(ids: seq<nat>, id: nat)
    ensures SetOf(ids + [id]) == SetOf(ids) + {id}
  {
  }

  lemma {:induction false} HasMaximum(ids: set<nat>)
    requires ids != {}
    ensures exists m :: m in ids && forall x <- ids :: x <= m
  {
    var some :| some in ids;
    if ids != {some} {
      var rest := ids - {some};
      assert ids == rest + {some};
      HasMaximum(rest);
      var m :| m in rest && forall x <- rest :: x <= m;
      var top := if some > m then some else m;
      assert top in ids && forall x <- ids :: x <= top;
    }
  }

  ghost function Sorted(ids: set<nat>): (r: seq<nat>)
    ensures Ascending(r) && SetOf(r) == ids
  {
    if ids == {} then []
    else
      HasMaximum(ids);
      var m :| m in ids && forall x <- ids :: x <= m;
      var rest := Sorted(ids - {m});
      assert forall x <- rest :: x in SetOf(rest);
      SetOfAppend(rest, m);
      rest + [m]
  }

  lemma LastIsTop(ids: seq<nat>)
    requires Ascending(ids) && ids != []
    ensures var n := |ids| - 1;
      ids == ids[..n] + [ids[n]] && SetOf(ids[..n]) == SetOf(ids) - {ids[n]} && forall x <- SetOf(ids) :: x <= ids[n]
  {
    var n := |ids| - 1;
    SetOfAppend(ids[..n], ids[n]);
    assert ids == ids[..n] + [ids[n]];
    assert forall x <- ids[..n] :: x < ids[n];
    assert ids[n] in SetOf(ids);
  }

  /** There is one way to sort. */
  lemma {:induction false} SortedIsUnique(a: seq<nat>, b: seq<nat>)
    requires Ascending(a) && Ascending(b) && SetOf(a) == SetOf(b)
    ensures a == b
  {
    assert a != [] ==> a[0] in SetOf(a);
    assert b != [] ==> b[0] in SetOf(b);
    if a != [] {
      LastIsTop(a);
      LastIsTop(b);
      assert a[|a| - 1] in SetOf(a) && b[|b| - 1] in SetOf(b);
      SortedIsUnique(a[..|a| - 1], b[..|b| - 1]);
    }
  }

  // ------------------------------------------------------------------ descending

  function Under(t: Tree, parent: Option<nat>): set<nat> {
    set c <- t.nodes | t.nodes[c].parent == parent
  }

  ghost function Children(t: Tree, p: nat): seq<nat> {
    Sorted(Under(t, Some(p)))
  }

  ghost function Roots(t: Tree): seq<nat> {
    Sorted(Under(t, None))
  }

  lemma ChildrenAre(t: Tree, p: nat)
    requires Forest(t)
    ensures Ascending(Children(t, p))
    ensures forall c :: c in Children(t, p) <==> ChildOf(t, c, p)
    ensures forall c <- Children(t, p) :: p < c <= t.next && c in t.nodes
  {
    assert forall c :: c in Children(t, p) <==> c in SetOf(Children(t, p));
    forall c | c in Children(t, p)
      ensures p < c <= t.next && c in t.nodes
    {
      assert c in SetOf(Children(t, p));
      assert Rooted(t, c);
    }
  }

  lemma RootsAre(t: Tree)
    requires Forest(t)
    ensures Ascending(Roots(t))
    ensures forall c :: c in Roots(t) <==> c in t.nodes && t.nodes[c].parent.None?
    ensures forall c <- Roots(t) :: 0 < c <= t.next && c in t.nodes
  {
    assert forall c :: c in Roots(t) <==> c in SetOf(Roots(t));
    forall c | c in Roots(t)
      ensures 0 < c <= t.next && c in t.nodes
    {
      assert c in SetOf(Roots(t));
      assert Rooted(t, c);
    }
  }

  lemma ChildrenAreYounger(t: Tree, p: nat)
    requires Forest(t)
    ensures Younger(t, Children(t, p), p)
  {
    ChildrenAre(t, p);
    var ids := Children(t, p);
    forall k | 0 <= k < |ids|
      ensures p < ids[k] <= t.next
    {
      assert ids[k] in ids;
    }
  }

  lemma RootsAreYounger(t: Tree)
    requires Forest(t)
    ensures Younger(t, Roots(t), 0)
  {
    RootsAre(t);
    var ids := Roots(t);
    forall k | 0 <= k < |ids|
      ensures 0 < ids[k] <= t.next
    {
      assert ids[k] in ids;
    }
  }

  predicate Younger(t: Tree, ids: seq<nat>, floor: nat) {
    forall k | 0 <= k < |ids| :: floor < ids[k] <= t.next
  }

  /** The subtree of an agent: those of its children in order, then the agent. */
  ghost function Postorder(t: Tree, id: nat): seq<nat>
    requires Forest(t) && id <= t.next
    decreases t.next - id, 1, 0
  {
    ChildrenAreYounger(t, id);
    Each(t, Children(t, id), id) + [id]
  }

  /** The subtrees of some agents younger than `floor`, one after the other. */
  ghost function Each(t: Tree, ids: seq<nat>, floor: nat): seq<nat>
    requires Forest(t) && floor <= t.next && Younger(t, ids, floor)
    decreases t.next - floor, 0, |ids|
  {
    if ids == [] then []
    else Each(t, ids[..|ids| - 1], floor) + Postorder(t, ids[|ids| - 1])
  }

  ghost function AllPostorder(t: Tree): seq<nat>
    requires Forest(t)
  {
    RootsAreYounger(t);
    Each(t, Roots(t), 0)
  }
}
