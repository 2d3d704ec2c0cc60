/** Climbing and descending agree, and a postorder closes everyone before those it depends on. */
module TaskTreeTheorems {
  import opened Wrappers
  import opened TaskTreeModel
  import opened Sequences

  // ------------------------------------------------------------------ ancestry

  lemma {:induction false} DescendantsAreYounger(t: Tree, c: nat, a: nat)
    requires Forest(t) && Descends(t, c, a)
    ensures a < c && c in t.nodes && a in t.nodes
    decreases c
  {
    var p := t.nodes[c].parent.value;
    assert Rooted(t, c);
    if p != a {
      DescendantsAreYounger(t, p, a);
    }
  }

  lemma {:induction false} DescendingIsTransitive(t: Tree, c: nat, b: nat, a: nat)
    requires Forest(t) && Descends(t, c, b) && Descends(t, b, a)
    ensures Descends(t, c, a)
    decreases c
  {
    var p := t.nodes[c].parent.value;
    assert Rooted(t, c);
    if p != b {
      DescendingIsTransitive(t, p, b, a);
    }
  }

  /** Whoever is below an agent is one of its children, or below one. */
  lemma {:induction false} ThroughAChild(t: Tree, c: nat, a: nat) returns (k: nat)
    requires Forest(t) && Descends(t, c, a)
    ensures ChildOf(t, k, a) && (c == k || Descends(t, c, k))
    decreases c
  {
    var p := t.nodes[c].parent.value;
    assert Rooted(t, c);
    if p == a {
      k := c;
    } else {
      k := ThroughAChild(t, p, a);
    }
  }

  /** Two ancestors of one agent are on one line. */
  lemma {:induction false} AncestorsAreInLine(t: Tree, c: nat, a: nat, b: nat)
    requires Forest(t) && Descends(t, c, a) && Descends(t, c, b)
    ensures a == b || Descends(t, a, b) || Descends(t, b, a)
    decreases c
  {
    var p := t.nodes[c].parent.value;
    assert Rooted(t, c);
    if p != a && p != b {
      AncestorsAreInLine(t, p, a, b);
    }
  }

  /** An agent with everyone below it. */
  ghost function Subtree(t: Tree, a: nat): set<nat>
    requires Forest(t)
  {
    {a} + set c <- t.nodes | Descends(t, c, a)
  }

  lemma SubtreesAreDisjoint(t: Tree, a: nat, b: nat)
    requires Forest(t) && a != b && !Descends(t, a, b) && !Descends(t, b, a)
    ensures Subtree(t, a) !! Subtree(t, b)
  {
    forall c | c in Subtree(t, a) && c in Subtree(t, b)
      ensures false
    {
      if c != a && c != b {
        AncestorsAreInLine(t, c, a, b);
      }
    }
  }

  lemma BelowTheSubtree(t: Tree, a: nat, x: nat, y: nat)
    requires Forest(t) && x in Subtree(t, a) && Descends(t, y, x)
    ensures y in Subtree(t, a)
  {
    DescendantsAreYounger(t, y, x);
    if x != a {
      DescendingIsTransitive(t, y, x, a);
    }
  }

  lemma SubtreeOfChildren(t: Tree, a: nat)
    requires Forest(t)
    ensures forall c :: c in Subtree(t, a) <==> c == a || exists k :: ChildOf(t, k, a) && c in Subtree(t, k)
  {
    forall c
      ensures c in Subtree(t, a) <==> c == a || exists k :: ChildOf(t, k, a) && c in Subtree(t, k)
    {
      if c in Subtree(t, a) && c != a {
        var k := ThroughAChild(t, c, a);
        assert c in Subtree(t, k);
      }
      if k :| ChildOf(t, k, a) && c in Subtree(t, k) {
        assert Descends(t, k, a);
        BelowTheChild(t, a, k, c);
      }
    }
  }

  lemma BelowTheChild(t: Tree, a: nat, k: nat, c: nat)
    requires Forest(t) && Descends(t, k, a) && c in Subtree(t, k)
    ensures c in Subtree(t, a)
  {
    DescendantsAreYounger(t, k, a);
    if c != k {
      DescendingIsTransitive(t, c, k, a);
    }
  }

  // ------------------------------------------------------------------ postorders

  /** Nobody is listed before someone below it. */
  ghost predicate DescendantsFirst(t: Tree, order: seq<nat>)
    requires Forest(t)
  {
    forall i, j :: 0 <= i < j < |order| ==> !Descends(t, order[j], order[i])
  }

  /** Different agents, none below another. */
  ghost predicate Apart(t: Tree, ids: seq<nat>)
    requires Forest(t)
  {
    forall i, j :: 0 <= i < |ids| && 0 <= j < |ids| && i != j ==> ids[i] != ids[j] && !Descends(t, ids[i], ids[j])
  }

  ghost predicate ListsSubtree(t: Tree, a: nat, order: seq<nat>)
    requires Forest(t)
  {
    Distinct(order) && DescendantsFirst(t, order) && SetOf(order) == Subtree(t, a)
  }

  ghost predicate ListsSubtrees(t: Tree, ids: seq<nat>, order: seq<nat>)
    requires Forest(t)
  {
    && Distinct(order) && DescendantsFirst(t, order)
    && forall c :: c in order <==> exists k <- ids :: c in Subtree(t, k)
  }

  lemma ChildrenAreApart(t: Tree, a: nat)
    requires Forest(t)
    ensures Apart(t, Children(t, a))
  {
    ChildrenAre(t, a);
    var ids := Children(t, a);
    forall i, j | 0 <= i < |ids| && 0 <= j < |ids| && i != j
      ensures ids[i] != ids[j] && !Descends(t, ids[i], ids[j])
    {
      assert ids[i] in ids && ids[j] in ids;
      if Descends(t, a, ids[j]) {
        DescendantsAreYounger(t, a, ids[j]);
      }
    }
  }

  lemma RootsAreApart(t: Tree)
    requires Forest(t)
    ensures Apart(t, Roots(t))
  {
    RootsAre(t);
    var ids := Roots(t);
    forall i, j | 0 <= i < |ids| && 0 <= j < |ids| && i != j
      ensures ids[i] != ids[j] && !Descends(t, ids[i], ids[j])
    {
      assert ids[i] in ids;
    }
  }

  lemma EarlierSubtreesAreApart(t: Tree, ids: seq<nat>, c: nat)
    requires Forest(t) && ids != [] && Apart(t, ids) && c in Subtree(t, ids[|ids| - 1])
    ensures forall k <- ids[..|ids| - 1] :: c !in Subtree(t, k)
  {
    var n := |ids| - 1;
    forall k | k in ids[..n]
      ensures c !in Subtree(t, k)
    {
      var i :| 0 <= i < n && ids[i] == k;
      SubtreesAreDisjoint(t, ids[i], ids[n]);
    }
  }

  /** One list of subtrees, then the subtree of another agent apart from them. */
  lemma ListsJoin(t: Tree, ids: seq<nat>, first: seq<nat>, second: seq<nat>)
    requires Forest(t) && ids != [] && Apart(t, ids)
    requires ListsSubtrees(t, ids[..|ids| - 1], first) && ListsSubtree(t, ids[|ids| - 1], second)
    ensures ListsSubtrees(t, ids, first + second)
  {
    var n := |ids| - 1;
    var order := first + second;
    assert ids == ids[..n] + [ids[n]];
    forall x, y | x in first && y in second
      ensures x != y && !Descends(t, y, x)
    {
      assert y in SetOf(second);
      EarlierSubtreesAreApart(t, ids, y);
      var k :| k in ids[..n] && x in Subtree(t, k);
      if Descends(t, y, x) {
        BelowTheSubtree(t, k, x, y);
      }
    }
    forall i, j | 0 <= i < j < |order|
      ensures order[i] != order[j] && !Descends(t, order[j], order[i])
    {
      assert i < |first| ==> order[i] in first;
      assert j >= |first| ==> order[j] in second;
    }
    forall c
      ensures c in order <==> exists k <- ids :: c in Subtree(t, k)
    {
      assert c in second <==> c in SetOf(second);
      if c in second {
        assert ids[n] in ids;
      }
      if k :| k in ids && c in Subtree(t, k) {
        assert k in ids[..n] || k == ids[n];
      }
    }
  }

  lemma {:induction false} EachLists(t: Tree, ids: seq<nat>, floor: nat)
    requires Forest(t) && floor <= t.next && Younger(t, ids, floor) && Apart(t, ids)
    ensures ListsSubtrees(t, ids, Each(t, ids, floor))
    decreases t.next - floor, 0, |ids|
  {
    if ids != [] {
      var n := |ids| - 1;
      assert ids[n] in ids;
      EachLists(t, ids[..n], floor);
      PostorderLists(t, ids[n]);
      ListsJoin(t, ids, Each(t, ids[..n], floor), Postorder(t, ids[n]));
    }
  }

  /** A subtree's postorder lists everyone in it once, after everyone below. */
  lemma {:induction false} PostorderLists(t: Tree, id: nat)
    requires Forest(t) && id <= t.next
    ensures ListsSubtree(t, id, Postorder(t, id))
    decreases t.next - id, 1, 0
  {
    ChildrenAreYounger(t, id);
    ChildrenAreApart(t, id);
    EachLists(t, Children(t, id), id);
    SubtreeOfChildren(t, id);
    Closing(t, id, Each(t, Children(t, id), id));
  }

  lemma Closing(t: Tree, id: nat, below: seq<nat>)
    requires Forest(t) && ListsSubtrees(t, Children(t, id), below)
    ensures ListsSubtree(t, id, below + [id])
  {
    ChildrenAre(t, id);
    SubtreeOfChildren(t, id);
    forall x | x in below
      ensures x > id && !Descends(t, id, x)
    {
      var k :| k in Children(t, id) && x in Subtree(t, k);
      BelowTheChild(t, id, k, x);
      if x != k {
        DescendantsAreYounger(t, x, k);
      }
      if Descends(t, id, x) {
        DescendantsAreYounger(t, id, x);
      }
    }
    var order := below + [id];
    forall i, j | 0 <= i < j < |order|
      ensures order[i] != order[j] && !Descends(t, order[j], order[i])
    {
      assert order[i] in below;
    }
    forall c
      ensures c in SetOf(order) <==> c in Subtree(t, id)
    {
      assert c in SetOf(order) <==> c in below || c == id;
    }
  }

  /** Climbing from one agent reaches another exactly if descending from that one lists the first below it. */
  lemma ClimbingIsDescending(t: Tree, c: nat, a: nat)
    requires Forest(t) && a <= t.next
    ensures Descends(t, c, a) <==> c in Postorder(t, a) && c != a
  {
    PostorderLists(t, a);
    assert c in Postorder(t, a) <==> c in SetOf(Postorder(t, a));
    if Descends(t, c, a) {
      DescendantsAreYounger(t, c, a);
    }
    if Descends(t, a, a) {
      DescendantsAreYounger(t, a, a);
    }
  }

  lemma {:induction false} HasRoot(t: Tree, c: nat) returns (r: nat)
    requires Forest(t) && c in t.nodes
    ensures r in Roots(t) && c in Subtree(t, r)
    decreases c
  {
    RootsAre(t);
    assert Rooted(t, c);
    if t.nodes[c].parent.None? {
      r := c;
    } else {
      r := HasRoot(t, t.nodes[c].parent.value);
    }
  }

  lemma RootCovers(t: Tree, order: seq<nat>, c: nat)
    requires Forest(t) && ListsSubtrees(t, Roots(t), order)
    ensures c in order <==> c in t.nodes
  {
    RootsAre(t);
    if c in t.nodes {
      var r := HasRoot(t, c);
    }
  }

  lemma RootsCover(t: Tree, order: seq<nat>)
    requires Forest(t) && ListsSubtrees(t, Roots(t), order)
    ensures SetOf(order) == t.nodes.Keys
  {
    forall c
      ensures c in order <==> c in t.nodes
    {
      RootCovers(t, order, c);
    }
  }

  /** The postorder of the whole tree lists every agent exactly once, after everyone below it. */
  lemma AllPostorderIsComplete(t: Tree)
    requires Forest(t)
    ensures Distinct(AllPostorder(t)) && DescendantsFirst(t, AllPostorder(t)) && SetOf(AllPostorder(t)) == t.nodes.Keys
  {
    RootsAreYounger(t);
    RootsAreApart(t);
    EachLists(t, Roots(t), 0);
    RootsCover(t, Each(t, Roots(t), 0));
  }

  // ------------------------------------------------------------------ runs

  /** The tree, and the parent each reserved id was reserved under. */
  datatype World = World(tree: Tree, reserved: map<nat, Option<nat>>)

  datatype Action = Reserve(parent: Option<nat>) | Insert(id: nat, session: string)

  /** Agents are inserted under the parent they were reserved with. */
  predicate Enabled(w: World, a: Action) {
    a.Insert? ==> a.id in w.reserved
  }

  function Next(w: World, a: Action): World
    requires Enabled(w, a)
  {
    match a
    case Reserve(p) =>
      if KnownParent(w.tree, p) then World(Reserved(w.tree), w.reserved[w.tree.next + 1 := p]) else w
    case Insert(id, session) => World(Inserted(w.tree, id, session, w.reserved[id]), w.reserved)
  }

  predicate Sound(w: World) {
    && Forest(w.tree)
    && forall id <- w.reserved :: 1 <= id <= w.tree.next && (w.reserved[id].Some? ==> w.reserved[id].value < id)
  }

  predicate Run(w: World, acts: seq<Action>)
    decreases |acts|
  {
    acts == [] || (Enabled(w, acts[0]) && Run(Next(w, acts[0]), acts[1..]))
  }

  function After(w: World, acts: seq<Action>): World
    requires Run(w, acts)
    decreases |acts|
  {
    if acts == [] then w else After(Next(w, acts[0]), acts[1..])
  }

  lemma StepIsSound(w: World, a: Action)
    requires Sound(w) && Enabled(w, a)
    ensures Sound(Next(w, a))
  {
    var w1 := Next(w, a);
    forall id | id in w1.tree.nodes
      ensures Rooted(w1.tree, id)
    {
      if id in w.tree.nodes {
        assert Rooted(w.tree, id);
      }
    }
    if a.Reserve? && a.parent.Some? && a.parent.value in w.tree.nodes {
      assert Rooted(w.tree, a.parent.value);
    }
  }

  /** However reservations and insertions interleave, the parent map stays a forest with older parents. */
  lemma {:induction false} RunsStayForests(w: World, acts: seq<Action>)
    requires Sound(w) && Run(w, acts)
    ensures Sound(After(w, acts))
    decreases |acts|
  {
    if acts != [] {
      StepIsSound(w, acts[0]);
      RunsStayForests(Next(w, acts[0]), acts[1..]);
    }
  }

  /** Inserting under any other parent keeps the forest exactly if that parent is unknown, and so refused, or older. */
  lemma InsertKeepsForest(t: Tree, id: nat, session: string, parent: Option<nat>)
    requires Forest(t) && 1 <= id <= t.next
    ensures Forest(Inserted(t, id, session, parent)) <==> parent.None? || parent.value !in t.nodes || parent.value < id
  {
    var t1 := Inserted(t, id, session, parent);
    if parent.None? || parent.value !in t.nodes || parent.value < id {
      forall x | x in t1.nodes
        ensures Rooted(t1, x)
      {
        if x in t.nodes {
          assert Rooted(t, x);
        }
      }
    } else {
      assert id in t1.nodes && !Rooted(t1, id);
    }
  }

  /** The tree itself does not hold callers to their reservations: a second insertion can close a cycle. */
  lemma InsertCanCloseACycle()
    ensures var t := Inserted(Inserted(Inserted(Tree(2, map[]), 1, "a", None), 2, "b", Some(1)), 1, "a", Some(2));
      ChildOf(t, 1, 2) && ChildOf(t, 2, 1) && !Forest(t)
  {
    var t0 := Inserted(Inserted(Tree(2, map[]), 1, "a", None), 2, "b", Some(1));
    assert Forest(t0);
    InsertKeepsForest(t0, 1, "a", Some(2));
  }
}
