/** `layoutAgents`: the recursive drawing updated in place, and the promises of the finished layout. */
module AgentGraphLayout {
  import opened AgentGraphModel
  import opened AgentGraphLinks
  import opened Wrappers
  import opened Sequences

  const NODE_WIDTH := 184.0
  const NODE_HEIGHT := 68.0
  const GAP_X := 16.0
  const GAP_Y := 44.0
  const PADDING := 24.0

  // ------------------------------------------------------------------ one recursive drawing

  /** Below the top of a subtree, everyone was drawn under a parent of the same subtree. */
  lemma DrawnUnderNewParent(d0: Drawing, d1: Drawing, family: Family, top: int, depth: nat, n: int)
    requires Tree(d0, d1, family, top, depth) && n in New(d0, d1) - {top}
    ensures exists p :: p in New(d0, d1) && n in ChildrenOf(family, p)
  {
    var e :| e in NewEdges(d0, d1) && e.to == n;
    assert Drawn(d1, family, New(d0, d1), New(d0, d1) - {top}, e);
  }

  /** A child still to be drawn is not drawn by drawing a sibling's subtree. */
  lemma SiblingsStayOut(d0: Drawing, d1: Drawing, family: Family, roster: set<int>, host: int, top: int, depth: nat, sibling: int)
    requires Orderly(family, roster) && Tree(d0, d1, family, top, depth)
    requires host in d0.placed && sibling in ChildrenOf(family, host)
    requires sibling !in d0.placed && sibling != top
    ensures sibling !in d1.placed
  {
    if sibling in New(d0, d1) - {top} {
      DrawnUnderNewParent(d0, d1, family, top, depth, sibling);
    }
  }

  /** The columns that drawing `kids` returned. */
  predicate Columns(placed: map<int, Spot>, kids: seq<int>, columns: seq<real>) {
    |columns| == |kids| && forall k | 0 <= k < |kids| :: kids[k] in placed && columns[k] == placed[kids[k]].column
  }

  lemma ColumnsGrow(d: Drawing, d1: Drawing, kids: seq<int>, columns: seq<real>, child: int)
    requires Extends(d, d1) && Columns(d.placed, kids, columns) && child in d1.placed
    ensures Columns(d1.placed, kids + [child], columns + [d1.placed[child].column])
  {
    forall k | 0 <= k < |kids|
      ensures kids[k] in d1.placed && columns[k] == d1.placed[kids[k]].column
    {
      var n := kids[k];
      assert d1.placed[n] == d.placed[n];
    }
  }

  /** The children still to be drawn: none placed, none twice. */
  predicate Waiting(placed: map<int, Spot>, children: seq<int>, below: seq<int>) {
    && (forall c <- below :: c in children && c !in placed)
    && Ascending(below)
  }

  lemma WaitingShrinks(placed: map<int, Spot>, placed1: map<int, Spot>, children: seq<int>, below: seq<int>)
    requires Waiting(placed, children, below) && below != []
    requires forall c <- children :: c in placed1 ==> c == below[0] || c in placed
    ensures Waiting(placed1, children, below[1..])
  {
    forall c | c in below[1..]
      ensures c in children && c !in placed1
    {
      assert c in below && c > below[0];
    }
  }

  class Layout {
    const family: Family
    const roster: set<int>
    var placed: map<int, Spot>
    var edges: seq<Edge>
    var nextColumn: nat

    ghost function State(): Drawing
      reads this
    {
      Drawing(placed, edges, nextColumn)
    }

    ghost predicate Valid()
      reads this
    {
      Orderly(family, roster) && placed.Keys <= roster && Rooted(State())
    }

    constructor (family: Family, roster: set<int>)
      requires Orderly(family, roster)
      ensures this.family == family && this.roster == roster && Valid() && State() == EMPTY
    {
      this.family, this.roster := family, roster;
      placed, edges, nextColumn := map[], [], 0;
    }

    /** The children not yet placed, in order. */
    method Below(id: int) returns (below: seq<int>)
      requires Valid()
      ensures Waiting(placed, ChildrenOf(family, id), below)
      ensures forall c <- ChildrenOf(family, id) :: c in placed || c in below
    {
      var children := ChildrenOf(family, id);
      below := [];
      for i := 0 to |children|
        invariant forall c <- below :: c in children && c !in placed
        invariant forall k | 0 <= k < i :: children[k] in placed || children[k] in below
        invariant forall k, l | 0 <= k < l < |below| :: below[k] < below[l]
        invariant forall k, l | 0 <= k < |below| && i <= l < |children| :: below[k] < children[l]
      {
        if children[i] !in placed {
          below := below + [children[i]];
        }
      }
    }

    /** Links a child to its parent and draws its subtree. */
    method PlaceChild(id: int, child: int, depth: nat, ghost marked: Drawing) returns (column: real)
      requires Valid() && Branches(marked, State(), family, id, depth)
      requires child in ChildrenOf(family, id) && child !in placed
      modifies this
      ensures Valid() && Branches(marked, State(), family, id, depth)
      ensures Extends(old(State()), State()) && child in placed && column == placed[child].column
      ensures Kids(edges, id) == Kids(old(edges), id) + [child]
      ensures forall c <- ChildrenOf(family, id) :: c in placed ==> c == child || c in old(placed)
      decreases roster - placed.Keys, 1
    {
      ghost var soFar := State();
      edges := edges + [Edge(id, child)];
      assert State() == WithEdge(soFar, Edge(id, child));
      column := Place(child, depth + 1);
      ChildIsDrawn(marked, soFar, State(), family, roster, id, child, depth);
    }

    /** Draws the first child still to come, and moves on to the rest. */
    method PlaceNext(id: int, below: seq<int>, i: nat, depth: nat, columns: seq<real>, ghost marked: Drawing,
                     ghost start: Drawing)
      returns (columns1: seq<real>)
      requires Valid() && Branches(marked, State(), family, id, depth)
      requires i < |below| && Waiting(placed, ChildrenOf(family, id), below[i..]) && Columns(placed, below[..i], columns)
      requires Extends(start, State()) && Kids(edges, id) == Kids(start.edges, id) + below[..i]
      modifies this
      ensures Valid() && Branches(marked, State(), family, id, depth)
      ensures Waiting(placed, ChildrenOf(family, id), below[i + 1..]) && Columns(placed, below[..i + 1], columns1)
      ensures Extends(start, State()) && Kids(edges, id) == Kids(start.edges, id) + below[..i + 1]
      decreases roster - placed.Keys, 2
    {
      ghost var soFar := State();
      assert below[i..][0] == below[i] && below[i] in below[i..];
      var c := PlaceChild(id, below[i], depth, marked);
      OneMorePlaced(start, soFar, State(), ChildrenOf(family, id), id, below, i, columns);
      columns1 := columns + [c];
    }

    /** Draws the children of a marked agent that are still to come, left to right. */
    method PlaceChildren(id: int, below: seq<int>, depth: nat, ghost marked: Drawing) returns (columns: seq<real>)
      requires Valid() && Branches(marked, State(), family, id, depth)
      requires Waiting(placed, ChildrenOf(family, id), below)
      modifies this
      ensures Valid() && Branches(marked, State(), family, id, depth) && Extends(old(State()), State())
      ensures Kids(edges, id) == Kids(old(edges), id) + below && Columns(placed, below, columns)
      decreases roster - placed.Keys, 3
    {
      columns := [];
      ghost var start := State();
      for i := 0 to |below|
        invariant Valid() && Branches(marked, State(), family, id, depth) && Extends(start, State())
        invariant Kids(edges, id) == Kids(start.edges, id) + below[..i] && Columns(placed, below[..i], columns)
        invariant Waiting(placed, ChildrenOf(family, id), below[i..])
      {
        columns := PlaceNext(id, below, i, depth, columns, marked, start);
      }
      assert below[..|below|] == below;
    }

    /** The column over the children, if there are any. */
    method ColumnFor(columns: seq<real>, ghost d: Drawing, ghost kids: seq<int>) returns (column: real)
      requires Columns(d.placed, kids, columns) && d.next == nextColumn
      modifies this`nextColumn
      ensures forall k <- kids :: k in d.placed
      ensures column == ColumnOver(d, kids) && nextColumn == if kids == [] then d.next + 1 else d.next
    {
      if |columns| > 0 {
        return (columns[0] + columns[|columns| - 1]) / 2.0;
      }
      column := nextColumn as real;
      nextColumn := nextColumn + 1;
    }

    /** Gives a marked agent its column, over its children or the next free one. */
    method Settle(id: int, depth: nat, columns: seq<real>, ghost before: Drawing) returns (column: real)
      requires Valid() && id in roster && ReadyToSettle(before, State(), family, id, depth)
      requires Columns(placed, Kids(edges, id), columns)
      modifies this
      ensures Valid() && Tree(before, State(), family, id, depth)
      ensures column == placed[id].column && edges == old(edges)
    {
      ghost var drawn := State();
      ghost var kids := Kids(edges, id);
      column := ColumnFor(columns, drawn, kids);
      placed := placed[id := Spot(column, depth)];
      SettledIsTree(before, drawn, State(), family, id, depth, kids);
    }

    /** Draws the whole subtree of an unplaced agent. */
    method Place(id: int, depth: nat) returns (column: real)
      requires Valid() && id in roster && id !in placed
      modifies this
      ensures Valid()
      ensures Tree(old(State()), State(), family, id, depth)
      ensures column == placed[id].column
      decreases roster - placed.Keys, 0
    {
      ghost var before := State();
      var below := Below(id);
      placed := placed[id := Spot(-1.0, depth)];
      MarkingStarts(before, family, id, depth);
      ghost var marked := State();
      assert marked == Marked(before, id, depth);
      var columns := PlaceChildren(id, below, depth, marked);
      AllBelowAreDrawn(before, State(), family, id, depth, below, columns);
      column := Settle(id, depth, columns, before);
    }
  }

  // ------------------------------------------------------------------ the roster by parent

  predicate ById(agents: seq<Agent>) {
    forall i, j :: 0 <= i < j < |agents| ==> agents[i].id < agents[j].id
  }

  function InsertById(agents: seq<Agent>, a: Agent): seq<Agent> {
    if agents == [] || a.id < agents[0].id then [a] + agents else [agents[0]] + InsertById(agents[1..], a)
  }

  function SortById(agents: seq<Agent>): seq<Agent> {
    if agents == [] then [] else InsertById(SortById(agents[1..]), agents[0])
  }

  lemma {:induction false} InsertMembers(agents: seq<Agent>, a: Agent)
    ensures forall x :: x in InsertById(agents, a) <==> x in agents || x == a
  {
    if agents == [] || a.id < agents[0].id {
    } else {
      assert agents == [agents[0]] + agents[1..];
      InsertMembers(agents[1..], a);
    }
  }

  lemma PrependSorted(first: Agent, rest: seq<Agent>)
    requires ById(rest) && forall x <- rest :: first.id < x.id
    ensures ById([first] + rest)
  {
    assert forall k | 0 <= k < |rest| :: rest[k] in rest;
  }

  lemma TailIsAfter(agents: seq<Agent>)
    requires ById(agents) && agents != []
    ensures ById(agents[1..]) && forall x <- agents[1..] :: agents[0].id < x.id
  {
  }

  lemma {:induction false} InsertSorts(agents: seq<Agent>, a: Agent)
    requires ById(agents) && a.id !in Ids(agents)
    ensures ById(InsertById(agents, a))
  {
    if agents == [] {
    } else if a.id < agents[0].id {
      TailIsAfter(agents);
      PrependSorted(a, agents);
    } else {
      assert agents[0] in agents;
      assert forall x <- agents[1..] :: x in agents;
      TailIsAfter(agents);
      InsertSorts(agents[1..], a);
      InsertMembers(agents[1..], a);
      PrependSorted(agents[0], InsertById(agents[1..], a));
    }
  }

  lemma {:induction false} SortSorts(agents: seq<Agent>)
    requires UniqueIds(agents)
    ensures ById(SortById(agents))
    ensures forall x :: x in SortById(agents) <==> x in agents
  {
    if agents != [] {
      SortSorts(agents[1..]);
      assert agents == [agents[0]] + agents[1..];
      assert agents[0].id !in Ids(SortById(agents[1..])) by {
        forall x | x in SortById(agents[1..])
          ensures x.id != agents[0].id
        {
          var k :| 0 <= k < |agents| - 1 && agents[1..][k] == x;
          assert agents[k + 1] == x;
        }
      }
      InsertSorts(SortById(agents[1..]), agents[0]);
      InsertMembers(SortById(agents[1..]), agents[0]);
    }
  }

  /** The agent this one hangs from, if any. */
  function ParentOf(agents: seq<Agent>, a: Agent): Option<int> {
    if a.parent.Some? && a.parent.value != a.id && a.parent.value in Ids(agents) then a.parent else None
  }

  /** The ids of the agents that hang from `parent`, in order; from `None`, the roots. */
  function Hanging(agents: seq<Agent>, part: seq<Agent>, parent: Option<int>): seq<int> {
    if part == [] then []
    else
      var n := |part| - 1;
      Hanging(agents, part[..n], parent) + if ParentOf(agents, part[n]) == parent then [part[n].id] else []
  }

  predicate Hangs(agents: seq<Agent>, part: seq<Agent>, parent: Option<int>, c: int) {
    exists a <- part :: a.id == c && ParentOf(agents, a) == parent
  }

  lemma HangsGrows(agents: seq<Agent>, rest: seq<Agent>, last: Agent, parent: Option<int>, c: int)
    ensures Hangs(agents, rest + [last], parent, c) <==>
      Hangs(agents, rest, parent, c) || (last.id == c && ParentOf(agents, last) == parent)
  {
    var part := rest + [last];
    if Hangs(agents, rest, parent, c) {
      var a :| a in rest && a.id == c && ParentOf(agents, a) == parent;
      assert a in part;
    }
    assert last in part;
  }

  lemma {:induction false} HangingIs(agents: seq<Agent>, part: seq<Agent>, parent: Option<int>)
    requires ById(part)
    ensures forall c :: c in Hanging(agents, part, parent) <==> Hangs(agents, part, parent, c)
    ensures forall i, j :: 0 <= i < j < |Hanging(agents, part, parent)| ==>
      Hanging(agents, part, parent)[i] < Hanging(agents, part, parent)[j]
  {
    if part != [] {
      var n := |part| - 1;
      var rest := part[..n];
      assert part == rest + [part[n]];
      HangingIs(agents, rest, parent);
      forall c
        ensures Hangs(agents, part, parent, c) <==>
          Hangs(agents, rest, parent, c) || (part[n].id == c && ParentOf(agents, part[n]) == parent)
      {
        HangsGrows(agents, rest, part[n], parent, c);
      }
      var kids := Hanging(agents, rest, parent);
      forall k | 0 <= k < |kids|
        ensures kids[k] < part[n].id
      {
        assert kids[k] in kids;
        assert Hangs(agents, rest, parent, kids[k]);
      }
    }
  }

  ghost predicate HangRight(agents: seq<Agent>, sorted: seq<Agent>, family: Family, p: int) {
    ChildrenOf(family, p) == Hanging(agents, sorted, Some(p))
  }

  /** The family and the roots that the roster's links make. */
  ghost predicate FamilyOf(agents: seq<Agent>, sorted: seq<Agent>, family: Family, roots: seq<int>) {
    && family.Keys <= Ids(agents)
    && (forall p :: HangRight(agents, sorted, family, p))
    && roots == Hanging(agents, sorted, None)
  }

  lemma FamilyGrows(agents: seq<Agent>, part: seq<Agent>, a: Agent, family: Family, roots: seq<int>)
    requires FamilyOf(agents, part, family, roots)
    ensures match ParentOf(agents, a)
      case Some(p) => FamilyOf(agents, part + [a], family[p := ChildrenOf(family, p) + [a.id]], roots)
      case None => FamilyOf(agents, part + [a], family, roots + [a.id])
  {
    assert (part + [a])[..|part|] == part;
    var parent := ParentOf(agents, a);
    var family1 := if parent.Some? then family[parent.value := ChildrenOf(family, parent.value) + [a.id]] else family;
    forall q
      ensures HangRight(agents, part + [a], family1, q)
    {
      assert HangRight(agents, part, family, q);
      assert Hanging(agents, part, Some(q)) + [] == Hanging(agents, part, Some(q));
    }
  }

  method AddToFamily(agents: seq<Agent>, ghost part: seq<Agent>, a: Agent, family: Family, roots: seq<int>)
    returns (family1: Family, roots1: seq<int>)
    requires FamilyOf(agents, part, family, roots)
    ensures FamilyOf(agents, part + [a], family1, roots1)
  {
    FamilyGrows(agents, part, a, family, roots);
    var parent := ParentOf(agents, a);
    if parent.Some? {
      return family[parent.value := ChildrenOf(family, parent.value) + [a.id]], roots;
    }
    return family, roots + [a.id];
  }

  method BuildFamily(agents: seq<Agent>, sorted: seq<Agent>) returns (family: Family, roots: seq<int>)
    ensures FamilyOf(agents, sorted, family, roots)
  {
    family, roots := map[], [];
    for i := 0 to |sorted|
      invariant FamilyOf(agents, sorted[..i], family, roots)
    {
      assert sorted[..i + 1] == sorted[..i] + [sorted[i]];
      family, roots := AddToFamily(agents, sorted[..i], sorted[i], family, roots);
    }
    assert sorted[..|sorted|] == sorted;
  }

  lemma LinkIsParent(agents: seq<Agent>, a: Agent, p: int)
    requires UniqueIds(agents) && a in agents
    ensures Link(agents, p, a.id) <==> ParentOf(agents, a) == Some(p)
  {
    if Link(agents, p, a.id) {
      var b :| b in agents && b.id == a.id && b.parent == Some(p);
      assert b == a;
    }
  }

  lemma ChildrenAreLinks(agents: seq<Agent>, sorted: seq<Agent>, family: Family, roots: seq<int>, p: int)
    requires UniqueIds(agents) && ById(sorted) && forall x :: x in sorted <==> x in agents
    requires FamilyOf(agents, sorted, family, roots) && p in family
    ensures Ascending(family[p])
    ensures forall c <- family[p] :: Link(agents, p, c) && c in Ids(agents) && c != p
  {
    assert HangRight(agents, sorted, family, p);
    assert family[p] == ChildrenOf(family, p) == Hanging(agents, sorted, Some(p));
    HangingIs(agents, sorted, Some(p));
    forall c | c in family[p]
      ensures Link(agents, p, c) && c in Ids(agents) && c != p
    {
      var a :| a in sorted && a.id == c && ParentOf(agents, a) == Some(p);
      LinkIsParent(agents, a, p);
    }
  }

  lemma FamilyIsOrderly(agents: seq<Agent>, sorted: seq<Agent>, family: Family, roots: seq<int>)
    requires UniqueIds(agents) && ById(sorted) && forall x :: x in sorted <==> x in agents
    requires FamilyOf(agents, sorted, family, roots)
    ensures Orderly(family, Ids(agents))
  {
    forall p | p in family
      ensures Ascending(family[p])
      ensures forall c <- family[p] :: c in Ids(agents) && c != p
    {
      ChildrenAreLinks(agents, sorted, family, roots, p);
    }
    forall p, q, c | p in family && q in family && c in family[p] && c in family[q]
      ensures p == q
    {
      ChildrenAreLinks(agents, sorted, family, roots, p);
      ChildrenAreLinks(agents, sorted, family, roots, q);
      LinksAreUnique(agents, p, q, c);
    }
  }

  lemma FamilyMatches(agents: seq<Agent>, sorted: seq<Agent>, family: Family, roots: seq<int>)
    requires UniqueIds(agents) && ById(sorted) && forall x :: x in sorted <==> x in agents
    requires FamilyOf(agents, sorted, family, roots)
    ensures Matches(agents, family, SetOf(roots))
    ensures Ascending(roots) && forall r <- roots :: r in Ids(agents)
  {
    HangingIs(agents, sorted, None);
    forall p, c | p in family && c in family[p]
      ensures Link(agents, p, c)
    {
      ChildrenAreLinks(agents, sorted, family, roots, p);
    }
    forall c | c in Ids(agents)
      ensures forall p <- Ids(agents) :: Link(agents, p, c) ==> c in ChildrenOf(family, p)
      ensures c in roots <==> forall p <- Ids(agents) :: !Link(agents, p, c)
    {
      MemberHangs(agents, sorted, family, roots, c);
    }
  }

  lemma LinksAreUnique(agents: seq<Agent>, p: int, q: int, c: int)
    requires UniqueIds(agents) && Link(agents, p, c) && Link(agents, q, c)
    ensures p == q
  {
    var a :| a in agents && a.id == c && a.parent == Some(p);
    LinkIsParent(agents, a, p);
    LinkIsParent(agents, a, q);
  }

  lemma ChildHangs(agents: seq<Agent>, sorted: seq<Agent>, family: Family, roots: seq<int>, a: Agent, p: int)
    requires UniqueIds(agents) && ById(sorted) && forall x :: x in sorted <==> x in agents
    requires FamilyOf(agents, sorted, family, roots) && a in agents && Link(agents, p, a.id)
    ensures a.id in ChildrenOf(family, p)
  {
    LinkIsParent(agents, a, p);
    assert HangRight(agents, sorted, family, p);
    HangingIs(agents, sorted, Some(p));
    assert Hangs(agents, sorted, Some(p), a.id);
  }

  lemma RootHangs(agents: seq<Agent>, sorted: seq<Agent>, a: Agent)
    requires UniqueIds(agents) && ById(sorted) && forall x :: x in sorted <==> x in agents
    requires a in agents
    ensures a.id in Hanging(agents, sorted, None) <==> ParentOf(agents, a).None?
  {
    HangingIs(agents, sorted, None);
    if ParentOf(agents, a).None? {
      assert Hangs(agents, sorted, None, a.id);
    } else if Hangs(agents, sorted, None, a.id) {
      var b :| b in sorted && b.id == a.id && ParentOf(agents, b) == None;
      SameAgent(agents, a, b);
    }
  }

  lemma SameAgent(agents: seq<Agent>, a: Agent, b: Agent)
    requires UniqueIds(agents) && a in agents && b in agents && a.id == b.id
    ensures a == b
  {
  }

  lemma MemberHangs(agents: seq<Agent>, sorted: seq<Agent>, family: Family, roots: seq<int>, c: int)
    requires UniqueIds(agents) && ById(sorted) && forall x :: x in sorted <==> x in agents
    requires FamilyOf(agents, sorted, family, roots) && c in Ids(agents)
    ensures forall p <- Ids(agents) :: Link(agents, p, c) ==> c in ChildrenOf(family, p)
    ensures c in roots <==> forall p <- Ids(agents) :: !Link(agents, p, c)
  {
    var a :| a in agents && a.id == c;
    RootHangs(agents, sorted, a);
    forall p | p in Ids(agents)
      ensures Link(agents, p, c) <==> ParentOf(agents, a) == Some(p)
      ensures Link(agents, p, c) ==> c in ChildrenOf(family, p)
    {
      LinkIsParent(agents, a, p);
      if Link(agents, p, c) {
        ChildHangs(agents, sorted, family, roots, a, p);
      }
    }
  }

  // ------------------------------------------------------------------ the finished layout

  datatype Node = Node(agent: Agent, x: real, y: real)

  function NodeAt(a: Agent, spot: Spot): Node {
    Node(a, PADDING + spot.column * (NODE_WIDTH + GAP_X), PADDING + spot.depth as real * (NODE_HEIGHT + GAP_Y))
  }

  /** Two boxes of 184 by 68, at least 16 apart in a row or 44 apart between rows. */
  predicate Clear(a: Node, b: Node) {
    || a.x + 184.0 + 16.0 <= b.x || b.x + 184.0 + 16.0 <= a.x
    || a.y + 68.0 + 44.0 <= b.y || b.y + 68.0 + 44.0 <= a.y
  }

  /** A box with 24 around it. */
  predicate Inside(n: Node, width: real, height: real) {
    24.0 <= n.x && n.x + 184.0 + 24.0 <= width && 24.0 <= n.y && n.y + 68.0 + 24.0 <= height
  }

  predicate Shows(agents: seq<Agent>, nodes: seq<Node>) {
    |nodes| == |agents| && forall i :: 0 <= i < |agents| ==> nodes[i].agent == agents[i]
  }

  /** Edges are links one row down, and no agent hangs from two parents. */
  predicate ForestOfLinks(agents: seq<Agent>, nodes: seq<Node>, edges: seq<Edge>) {
    && (forall e <- edges :: Link(agents, e.from, e.to))
    && (forall i, j :: 0 <= i < j < |edges| ==> edges[i].to != edges[j].to)
    && (forall a <- nodes, b <- nodes | Edge(a.agent.id, b.agent.id) in edges :: b.y == a.y + 68.0 + 44.0)
  }

  /** The agents that no edge leads to stand in the first row, the whole drawing starts there. */
  predicate TopsInFirstRow(nodes: seq<Node>, edges: seq<Edge>) {
    forall n <- nodes | (forall e <- edges :: e.to != n.agent.id) :: n.y == 24.0
  }

  /** The agents without drawn children take one column each, with none left over. */
  predicate NoWiderThanNeeded(agents: seq<Agent>, edges: seq<Edge>, width: real) {
    agents != [] ==> width == 24.0 + (184.0 + 16.0) * |set id <- Ids(agents) | Kids(edges, id) == []| as real - 16.0 + 24.0
  }

  /** Every parent is centred over its first and last child, and its children stand by increasing id from left to right. */
  predicate ParentsCentred(nodes: seq<Node>, edges: seq<Edge>) {
    forall p <- nodes | Kids(edges, p.agent.id) != [] ::
      var kids := Kids(edges, p.agent.id);
      && Ascending(kids)
      && forall a <- nodes, b <- nodes | a.agent.id == kids[0] && b.agent.id == kids[|kids| - 1] :: p.x == (a.x + b.x) / 2.0
  }

  predicate ChildrenInOrder(nodes: seq<Node>, edges: seq<Edge>) {
    forall a <- nodes, b <- nodes, p <- nodes
      | Edge(p.agent.id, a.agent.id) in edges && Edge(p.agent.id, b.agent.id) in edges && a.agent.id < b.agent.id :: a.x < b.x
  }

  /** Every agent whose chain of parents ends has its link drawn; without a cycle that is every agent. */
  ghost predicate GroundedLinksDrawn(agents: seq<Agent>, edges: seq<Edge>) {
    forall rank: map<int, nat> | Grounded(agents, rank) ::
      forall c <- Ids(agents), p <- Ids(agents) | c in rank && Link(agents, p, c) :: Edge(p, c) in edges
  }

  ghost predicate Acyclic(agents: seq<Agent>) {
    exists rank: map<int, nat> :: Grounded(agents, rank) && Ids(agents) <= rank.Keys
  }

  predicate AllLinksDrawn(agents: seq<Agent>, edges: seq<Edge>) {
    forall p <- Ids(agents), c <- Ids(agents) | Link(agents, p, c) :: Edge(p, c) in edges
  }

  /** A drawing that keeps every link has one row more for each, so the rows themselves rule a cycle out. */
  lemma LinksDrawnOnlyIfAcyclic(agents: seq<Agent>, d: Drawing, family: Family, tops: set<int>)
    requires Grove(d, family, tops) && d.placed.Keys == Ids(agents) && AllLinksDrawn(agents, d.edges)
    ensures Acyclic(agents)
  {
    var rank: map<int, nat> := map id | id in d.placed :: d.placed[id].depth;
    forall c, p | c in rank && p in Ids(agents) && Link(agents, p, c)
      ensures p in rank && rank[p] < rank[c]
    {
      assert Edge(p, c) in d.edges;
      assert Drawn(d, family, d.placed.Keys, d.placed.Keys - tops, Edge(p, c));
    }
    assert Grounded(agents, rank);
  }

  lemma LinksDrawnIfAcyclic(agents: seq<Agent>, edges: seq<Edge>)
    requires GroundedLinksDrawn(agents, edges) && Acyclic(agents)
    ensures AllLinksDrawn(agents, edges)
  {
    var rank: map<int, nat> :| Grounded(agents, rank) && Ids(agents) <= rank.Keys;
    forall p, c | p in Ids(agents) && c in Ids(agents) && Link(agents, p, c)
      ensures Edge(p, c) in edges
    {
      assert c in rank;
    }
  }

  lemma LinksDrawnExactlyIfAcyclic(agents: seq<Agent>, d: Drawing, family: Family, tops: set<int>)
    requires Grove(d, family, tops) && d.placed.Keys == Ids(agents) && GroundedLinksDrawn(agents, d.edges)
    ensures AllLinksDrawn(agents, d.edges) <==> Acyclic(agents)
  {
    if Acyclic(agents) {
      LinksDrawnIfAcyclic(agents, d.edges);
    }
    if AllLinksDrawn(agents, d.edges) {
      LinksDrawnOnlyIfAcyclic(agents, d, family, tops);
    }
  }

  lemma ColumnsClear(a: Agent, b: Agent, s: Spot, t: Spot)
    requires Apart(s, t)
    ensures Clear(NodeAt(a, s), NodeAt(b, t))
  {
    if s.depth < t.depth {
      assert s.depth as real + 1.0 <= t.depth as real;
    } else if t.depth < s.depth {
      assert t.depth as real + 1.0 <= s.depth as real;
    }
  }

  lemma NodesClear(agents: seq<Agent>, d: Drawing, family: Family, tops: set<int>, i: nat, j: nat)
    requires UniqueIds(agents) && Grove(d, family, tops) && d.placed.Keys == Ids(agents)
    requires i < j < |agents|
    ensures agents[i].id in d.placed && agents[j].id in d.placed
    ensures Clear(NodeAt(agents[i], d.placed[agents[i].id]), NodeAt(agents[j], d.placed[agents[j].id]))
  {
    var a, b := agents[i].id, agents[j].id;
    assert agents[i] in agents && agents[j] in agents;
    assert a in Ids(agents) && b in Ids(agents);
    assert a in New(EMPTY, d) && b in New(EMPTY, d) && a != b;
    ColumnsClear(agents[i], agents[j], d.placed[a], d.placed[b]);
  }

  lemma RootsHangFromNobody(agents: seq<Agent>, family: Family, roots: set<int>, r: int)
    requires Matches(agents, family, roots) && Orderly(family, Ids(agents)) && r in roots && r in Ids(agents)
    ensures forall p :: r !in ChildrenOf(family, p)
  {
  }

  lemma RootsStayOut(agents: seq<Agent>, d0: Drawing, d1: Drawing, family: Family, roots: set<int>, top: int, r: int)
    requires Matches(agents, family, roots) && Orderly(family, Ids(agents)) && Tree(d0, d1, family, top, 0)
    requires r in roots && r in Ids(agents) && r != top && r !in d0.placed
    ensures r !in d1.placed
  {
    if r in New(d0, d1) - {top} {
      DrawnUnderNewParent(d0, d1, family, top, 0, r);
      RootsHangFromNobody(agents, family, roots, r);
    }
  }

  lemma AfterRoots(agents: seq<Agent>, d: Drawing, family: Family, roots: set<int>)
    requires Orderly(family, Ids(agents)) && Matches(agents, family, roots) && Grove(d, family, roots)
    ensures GroundedLinksDrawn(agents, d.edges)
  {
    forall rank: map<int, nat>, c, p | Grounded(agents, rank) && c in Ids(agents) && p in Ids(agents) && c in rank && Link(agents, p, c)
      ensures Edge(p, c) in d.edges
    {
      GroundedIsDrawn(agents, d, family, roots, rank, p, c);
    }
  }

  /** The tops of the trees drawn so far; roots still to come are not placed. */
  ghost predicate RootsDrawn(l: Layout, agents: seq<Agent>, family: Family, roots: seq<int>, i: nat)
    requires i <= |roots|
    reads l
  {
    && l.Valid() && l.family == family && l.roster == Ids(agents)
    && Grove(l.State(), family, SetOf(roots[..i]))
    && forall k | i <= k < |roots| :: roots[k] !in l.placed
  }

  lemma RootStaysOut(agents: seq<Agent>, d0: Drawing, d1: Drawing, family: Family, roots: seq<int>, i: nat, k: nat)
    requires i < k < |roots| && Ascending(roots) && roots[k] in Ids(agents) && roots[k] !in d0.placed
    requires Matches(agents, family, SetOf(roots)) && Orderly(family, Ids(agents)) && Tree(d0, d1, family, roots[i], 0)
    ensures roots[k] !in d1.placed
  {
    assert roots[i] < roots[k];
    RootsStayOut(agents, d0, d1, family, SetOf(roots), roots[i], roots[k]);
  }

  lemma LaterRootsStayOut(agents: seq<Agent>, d0: Drawing, d1: Drawing, family: Family, roots: seq<int>, i: nat)
    requires i < |roots| && Ascending(roots) && (forall r <- roots :: r in Ids(agents))
    requires Matches(agents, family, SetOf(roots)) && Orderly(family, Ids(agents)) && Tree(d0, d1, family, roots[i], 0)
    requires forall k | i <= k < |roots| :: roots[k] !in d0.placed
    ensures forall k | i < k < |roots| :: roots[k] !in d1.placed
  {
    forall k | i < k < |roots|
      ensures roots[k] !in d1.placed
    {
      RootStaysOut(agents, d0, d1, family, roots, i, k);
    }
  }

  lemma FirstRoots(roots: seq<int>, i: nat)
    requires i < |roots|
    ensures SetOf(roots[..i + 1]) == SetOf(roots[..i]) + {roots[i]}
  {
    assert roots[..i + 1] == roots[..i] + [roots[i]];
  }

  lemma TopsGrow(d0: Drawing, d1: Drawing, family: Family, roots: seq<int>, i: nat)
    requires i < |roots| && Grove(d0, family, SetOf(roots[..i])) && Tree(d0, d1, family, roots[i], 0)
    ensures Grove(d1, family, SetOf(roots[..i + 1]))
  {
    GroveGrows(d0, d1, family, SetOf(roots[..i]), roots[i]);
    FirstRoots(roots, i);
  }

  method DrawRoot(l: Layout, agents: seq<Agent>, family: Family, roots: seq<int>, i: nat)
    requires Orderly(family, Ids(agents)) && Matches(agents, family, SetOf(roots))
    requires Ascending(roots) && forall r <- roots :: r in Ids(agents)
    requires i < |roots| && RootsDrawn(l, agents, family, roots, i)
    modifies l
    ensures RootsDrawn(l, agents, family, roots, i + 1)
  {
    ghost var before := l.State();
    var column := l.Place(roots[i], 0);
    TopsGrow(before, l.State(), family, roots, i);
    LaterRootsStayOut(agents, before, l.State(), family, roots, i);
  }

  method DrawRoots(l: Layout, agents: seq<Agent>, family: Family, roots: seq<int>)
    requires l.Valid() && l.family == family && l.roster == Ids(agents) && l.State() == EMPTY
    requires Orderly(family, Ids(agents)) && Matches(agents, family, SetOf(roots))
    requires Ascending(roots) && forall r <- roots :: r in Ids(agents)
    modifies l
    ensures l.Valid() && l.family == family && l.roster == Ids(agents)
    ensures Grove(l.State(), family, SetOf(roots))
  {
    for i := 0 to |roots|
      invariant RootsDrawn(l, agents, family, roots, i)
    {
      DrawRoot(l, agents, family, roots, i);
    }
    assert roots[..|roots|] == roots;
  }

  /** What is drawn after the roots: whole trees from the agents that no other tree reaches. */
  ghost predicate Explained(l: Layout, agents: seq<Agent>, roots: set<int>, tops: set<int>)
    reads l
  {
    && l.Valid() && l.roster == Ids(agents)
    && Grove(l.State(), l.family, tops) && TopsExplained(agents, l.State(), roots, tops)
  }

  /** Draws a tree from an agent, unless it is in one already; all agents of lower id are. */
  method DrawMissing(l: Layout, ghost agents: seq<Agent>, id: int, ghost roots: set<int>, ghost tops: set<int>)
    returns (ghost tops1: set<int>)
    requires UniqueIds(agents) && ListsLinks(agents, l.family) && Explained(l, agents, roots, tops)
    requires id in Ids(agents) && forall x <- Ids(agents) :: x < id ==> x in l.placed
    modifies l
    ensures Explained(l, agents, roots, tops1)
    ensures Extends(old(l.State()), l.State()) && id in l.placed
  {
    tops1 := tops;
    if id !in l.placed {
      ghost var before := l.State();
      var column := l.Place(id, 0);
      GroveGrows(before, l.State(), l.family, tops, id);
      TreeExplained(agents, before, l.State(), l.family, roots, tops, id);
      tops1 := tops + {id};
    }
  }

  lemma LowerIsEarlier(agents: seq<Agent>, sorted: seq<Agent>, i: nat, x: int) returns (k: nat)
    requires ById(sorted) && (forall a :: a in sorted <==> a in agents)
    requires i < |sorted| && x in Ids(agents) && x < sorted[i].id
    ensures k < i && sorted[k].id == x
  {
    var a :| a in agents && a.id == x;
    assert a in sorted;
    k :| 0 <= k < |sorted| && sorted[k] == a;
  }

  lemma LowerArePlaced(agents: seq<Agent>, sorted: seq<Agent>, i: nat, placed: map<int, Spot>)
    requires ById(sorted) && (forall a :: a in sorted <==> a in agents)
    requires i < |sorted| && PlacedUpto(sorted, i, placed)
    ensures sorted[i].id in Ids(agents) && forall x <- Ids(agents) :: x < sorted[i].id ==> x in placed
  {
    assert sorted[i] in agents;
    forall x | x in Ids(agents) && x < sorted[i].id
      ensures x in placed
    {
      var k := LowerIsEarlier(agents, sorted, i, x);
    }
  }

  predicate PlacedUpto(sorted: seq<Agent>, i: nat, placed: map<int, Spot>)
    requires i <= |sorted|
  {
    forall k | 0 <= k < i :: sorted[k].id in placed
  }

  lemma AllSiblingsStayOut(d0: Drawing, d1: Drawing, family: Family, roster: set<int>, host: int, top: int, depth: nat)
    requires Orderly(family, roster) && Tree(d0, d1, family, top, depth) && host in d0.placed
    ensures forall c <- ChildrenOf(family, host) :: c in d1.placed ==> c == top || c in d0.placed
  {
    forall c | c in ChildrenOf(family, host) && c != top && c !in d0.placed
      ensures c !in d1.placed
    {
      SiblingsStayOut(d0, d1, family, roster, host, top, depth, c);
    }
  }

  lemma SettledIsTree(before: Drawing, drawn: Drawing, after: Drawing, family: Family, id: int, depth: nat, kids: seq<int>)
    requires ReadyToSettle(before, drawn, family, id, depth) && kids == Kids(drawn.edges, id)
    requires (forall k <- kids :: k in drawn.placed) && after == Settled(drawn, id, depth, kids)
    ensures Tree(before, after, family, id, depth) && Rooted(after) && after.placed.Keys == drawn.placed.Keys + {id}
  {
    TreeSettles(before, drawn, family, id, depth);
  }

  /** Once all that were to come are drawn, the agent itself can be settled. */
  lemma AllBelowAreDrawn(d0: Drawing, d: Drawing, family: Family, id: int, depth: nat, below: seq<int>, columns: seq<real>)
    requires Rooted(d0) && id !in d0.placed && Branches(Marked(d0, id, depth), d, family, id, depth)
    requires Kids(d.edges, id) == Kids(d0.edges, id) + below && Kids(d0.edges, id) == [] && Ascending(below)
    requires forall c <- ChildrenOf(family, id) :: c in Marked(d0, id, depth).placed || c in below
    requires Columns(d.placed, below, columns)
    ensures ReadyToSettle(d0, d, family, id, depth) && Columns(d.placed, Kids(d.edges, id), columns)
  {
    assert Kids(d.edges, id) == below;
    forall c | c in ChildrenOf(family, id)
      ensures c in d.placed
    {
      if c in below {
        var k :| 0 <= k < |below| && below[k] == c;
      }
    }
  }

  lemma ChildIsDrawn(marked: Drawing, d0: Drawing, d1: Drawing, family: Family, roster: set<int>, id: int, child: int, depth: nat)
    requires Orderly(family, roster) && Branches(marked, d0, family, id, depth)
    requires child in ChildrenOf(family, id) && child !in d0.placed
    requires Tree(WithEdge(d0, Edge(id, child)), d1, family, child, depth + 1)
    ensures Branches(marked, d1, family, id, depth) && Extends(d0, d1) && child in d1.placed
    ensures Kids(d1.edges, id) == Kids(d0.edges, id) + [child]
    ensures forall c <- ChildrenOf(family, id) :: c in d1.placed ==> c == child || c in d0.placed
  {
    BranchGrows(marked, d0, d1, family, id, depth, child);
    AllSiblingsStayOut(WithEdge(d0, Edge(id, child)), d1, family, roster, id, child, depth + 1);
  }

  lemma OneMorePlaced(start: Drawing, d0: Drawing, d1: Drawing, children: seq<int>, id: int, below: seq<int>, i: nat,
                      columns: seq<real>)
    requires i < |below| && Waiting(d0.placed, children, below[i..]) && Columns(d0.placed, below[..i], columns)
    requires Extends(start, d0) && Extends(d0, d1) && below[i] in d1.placed
    requires forall c <- children :: c in d1.placed ==> c == below[i] || c in d0.placed
    requires Kids(d0.edges, id) == Kids(start.edges, id) + below[..i] && Kids(d1.edges, id) == Kids(d0.edges, id) + [below[i]]
    ensures Waiting(d1.placed, children, below[i + 1..])
    ensures Columns(d1.placed, below[..i + 1], columns + [d1.placed[below[i]].column])
    ensures Extends(start, d1) && Kids(d1.edges, id) == Kids(start.edges, id) + below[..i + 1]
  {
    assert below[i..][0] == below[i] && below[i..][1..] == below[i + 1..];
    assert below[..i] + [below[i]] == below[..i + 1];
    ColumnsGrow(d0, d1, below[..i], columns, below[i]);
    WaitingShrinks(d0.placed, d1.placed, children, below[i..]);
    ExtendsOn(start, d0, d1);
  }

  lemma ExtendsOn(d0: Drawing, d1: Drawing, d2: Drawing)
    requires Extends(d0, d1) && Extends(d1, d2)
    ensures Extends(d0, d2)
  {
  }

  method DrawNext(l: Layout, ghost agents: seq<Agent>, sorted: seq<Agent>, i: nat, ghost roots: set<int>, ghost tops: set<int>)
    returns (ghost tops1: set<int>)
    requires UniqueIds(agents) && ListsLinks(agents, l.family) && Explained(l, agents, roots, tops)
    requires ById(sorted) && forall a :: a in sorted <==> a in agents
    requires i < |sorted| && PlacedUpto(sorted, i, l.placed)
    modifies l
    ensures Explained(l, agents, roots, tops1) && PlacedUpto(sorted, i + 1, l.placed)
    ensures Extends(old(l.State()), l.State())
  {
    LowerArePlaced(agents, sorted, i, l.placed);
    tops1 := DrawMissing(l, agents, sorted[i].id, roots, tops);
  }

  method DrawRest(l: Layout, ghost agents: seq<Agent>, sorted: seq<Agent>, ghost roots: set<int>)
    returns (ghost tops: set<int>)
    requires UniqueIds(agents) && ListsLinks(agents, l.family) && Explained(l, agents, roots, roots)
    requires ById(sorted) && forall a :: a in sorted <==> a in agents
    modifies l
    ensures Explained(l, agents, roots, tops)
    ensures Extends(old(l.State()), l.State())
    ensures PlacedUpto(sorted, |sorted|, l.placed)
  {
    tops := roots;
    ghost var start := l.State();
    for i := 0 to |sorted|
      invariant Explained(l, agents, roots, tops) && Extends(start, l.State())
      invariant PlacedUpto(sorted, i, l.placed)
    {
      ghost var before := l.State();
      tops := DrawNext(l, agents, sorted, i, roots, tops);
      ExtendsOn(start, before, l.State());
    }
  }

  lemma AllPlaced(agents: seq<Agent>, sorted: seq<Agent>, placed: map<int, Spot>)
    requires (forall a :: a in sorted <==> a in agents) && PlacedUpto(sorted, |sorted|, placed)
    ensures Ids(agents) <= placed.Keys
  {
    forall id | id in Ids(agents)
      ensures id in placed
    {
      var a :| a in agents && a.id == id;
      assert a in sorted;
    }
  }

  lemma LinksStayDrawn(agents: seq<Agent>, edges: seq<Edge>, edges1: seq<Edge>)
    requires GroundedLinksDrawn(agents, edges) && edges <= edges1
    ensures GroundedLinksDrawn(agents, edges1)
  {
    forall rank: map<int, nat>, c, p | Grounded(agents, rank) && c in Ids(agents) && p in Ids(agents) && c in rank && Link(agents, p, c)
      ensures Edge(p, c) in edges1
    {
      assert Edge(p, c) in edges;
    }
  }

  /** Draws every root's tree, then a tree from each agent still missing, lowest id first. */
  method DrawRoster(agents: seq<Agent>, sorted: seq<Agent>, family: Family, roots: seq<int>)
    returns (l: Layout, ghost tops: set<int>)
    requires UniqueIds(agents) && ById(sorted) && forall x :: x in sorted <==> x in agents
    requires Orderly(family, Ids(agents)) && Matches(agents, family, SetOf(roots))
    requires Ascending(roots) && forall r <- roots :: r in Ids(agents)
    ensures l.Valid() && l.family == family && l.roster == Ids(agents)
    ensures Grove(l.State(), family, tops) && l.placed.Keys == Ids(agents)
    ensures GroundedLinksDrawn(agents, l.edges) && LinksDrawnExactly(agents, l.edges)
  {
    l := new Layout(family, Ids(agents));
    DrawRoots(l, agents, family, roots);
    AfterRoots(agents, l.State(), family, SetOf(roots));
    RootsExplained(agents, l.State(), family, SetOf(roots));
    ghost var rooted := l.edges;
    tops := DrawRest(l, agents, sorted, SetOf(roots));
    AllPlaced(agents, sorted, l.placed);
    LinksStayDrawn(agents, rooted, l.edges);
    ExplainedLinks(agents, l.State(), family, SetOf(roots), tops);
  }

  lemma EdgesAreForest(agents: seq<Agent>, nodes: seq<Node>, d: Drawing, family: Family, roots: set<int>, tops: set<int>)
    requires Matches(agents, family, roots) && Grove(d, family, tops)
    requires forall n <- nodes :: n.agent.id in d.placed && n == NodeAt(n.agent, d.placed[n.agent.id])
    ensures ForestOfLinks(agents, nodes, d.edges)
  {
    forall e | e in d.edges
      ensures Link(agents, e.from, e.to)
    {
      assert Drawn(d, family, d.placed.Keys, d.placed.Keys - tops, e);
      assert e.from in family && e.to in family[e.from];
    }
    forall a, b | a in nodes && b in nodes && Edge(a.agent.id, b.agent.id) in d.edges
      ensures b.y == a.y + 68.0 + 44.0
    {
      assert Drawn(d, family, d.placed.Keys, d.placed.Keys - tops, Edge(a.agent.id, b.agent.id));
      assert d.placed[b.agent.id].depth as real == d.placed[a.agent.id].depth as real + 1.0;
    }
  }

  lemma NodesCentred(nodes: seq<Node>, d: Drawing, family: Family, tops: set<int>)
    requires Grove(d, family, tops)
    requires forall n <- nodes :: n.agent.id in d.placed && n == NodeAt(n.agent, d.placed[n.agent.id])
    ensures ParentsCentred(nodes, d.edges)
  {
    forall p | p in nodes
      ensures Centred(d, p.agent.id)
    {
      assert p.agent.id in New(EMPTY, d);
    }
  }

  /** The smallest bounds that hold every box with its padding. */
  method Measure(nodes: seq<Node>) returns (width: real, height: real)
    requires forall n <- nodes :: n.x >= PADDING && n.y >= PADDING
    ensures forall n <- nodes :: Inside(n, width, height)
    ensures nodes == [] ==> width == 0.0 && height == 0.0
    ensures nodes != [] ==> exists n <- nodes :: n.x + 184.0 + 24.0 == width
    ensures nodes != [] ==> exists n <- nodes :: n.y + 68.0 + 24.0 == height
  {
    if nodes == [] {
      return 0.0, 0.0;
    }
    var columns, depths := 0.0, 0.0;
    for i := 0 to |nodes|
      invariant forall k | 0 <= k < i ::
        nodes[k].x <= PADDING + (columns - 1.0) * (NODE_WIDTH + GAP_X) && nodes[k].y <= PADDING + (depths - 1.0) * (NODE_HEIGHT + GAP_Y)
      invariant i == 0 ==> columns == 0.0 && depths == 0.0
      invariant i > 0 ==> exists k :: 0 <= k < i && nodes[k].x == PADDING + (columns - 1.0) * (NODE_WIDTH + GAP_X)
      invariant i > 0 ==> exists k :: 0 <= k < i && nodes[k].y == PADDING + (depths - 1.0) * (NODE_HEIGHT + GAP_Y)
    {
      assert nodes[i] in nodes;
      var column := (nodes[i].x - PADDING) / (NODE_WIDTH + GAP_X) + 1.0;
      var depth := (nodes[i].y - PADDING) / (NODE_HEIGHT + GAP_Y) + 1.0;
      assert nodes[i].x == PADDING + (column - 1.0) * (NODE_WIDTH + GAP_X);
      assert nodes[i].y == PADDING + (depth - 1.0) * (NODE_HEIGHT + GAP_Y);
      if column > columns {
        columns := column;
      }
      if depth > depths {
        depths := depth;
      }
    }
    width := PADDING * 2.0 + columns * (NODE_WIDTH + GAP_X) - GAP_X;
    height := PADDING * 2.0 + depths * (NODE_HEIGHT + GAP_Y) - GAP_Y;
  }

  /** The boxes of a drawing, in roster order. */
  predicate Boxes(agents: seq<Agent>, nodes: seq<Node>, placed: map<int, Spot>) {
    && |nodes| == |agents|
    && forall k | 0 <= k < |agents| :: agents[k].id in placed && nodes[k] == NodeAt(agents[k], placed[agents[k].id])
  }

  lemma BoxesAreNodes(agents: seq<Agent>, nodes: seq<Node>, d: Drawing, family: Family, tops: set<int>)
    requires Boxes(agents, nodes, d.placed) && Grove(d, family, tops)
    ensures Shows(agents, nodes)
    ensures forall n <- nodes :: n.agent.id in d.placed && n == NodeAt(n.agent, d.placed[n.agent.id])
    ensures forall n <- nodes :: n.x >= PADDING && n.y >= PADDING
  {
    forall n | n in nodes
      ensures n.x >= PADDING && n.y >= PADDING
    {
      assert n.agent.id in New(EMPTY, d);
    }
  }

  lemma BoxesClear(agents: seq<Agent>, nodes: seq<Node>, d: Drawing, family: Family, tops: set<int>)
    requires UniqueIds(agents) && Grove(d, family, tops) && d.placed.Keys == Ids(agents) && Boxes(agents, nodes, d.placed)
    ensures forall i, j :: 0 <= i < j < |nodes| ==> Clear(nodes[i], nodes[j])
  {
    forall i, j | 0 <= i < j < |nodes|
      ensures Clear(nodes[i], nodes[j])
    {
      NodesClear(agents, d, family, tops, i, j);
    }
  }

  lemma TopsStandFirst(nodes: seq<Node>, d: Drawing, family: Family, tops: set<int>)
    requires Grove(d, family, tops)
    requires forall n <- nodes :: n.agent.id in d.placed && n == NodeAt(n.agent, d.placed[n.agent.id])
    ensures TopsInFirstRow(nodes, d.edges)
  {
    forall n | n in nodes && (forall e <- d.edges :: e.to != n.agent.id)
      ensures n.y == 24.0
    {
      assert n.agent.id in d.placed.Keys - tops ==> exists e <- d.edges :: e.to == n.agent.id;
    }
  }

  lemma {:induction false} EdgesMakeKids(edges: seq<Edge>, p: int, c: int)
    requires Edge(p, c) in edges
    ensures c in Kids(edges, p)
  {
    var n := |edges| - 1;
    if edges[n] != Edge(p, c) {
      assert edges == edges[..n] + [edges[n]];
      EdgesMakeKids(edges[..n], p, c);
    }
  }

  lemma NodesInOrder(nodes: seq<Node>, d: Drawing, family: Family, tops: set<int>)
    requires Grove(d, family, tops)
    requires forall n <- nodes :: n.agent.id in d.placed && n == NodeAt(n.agent, d.placed[n.agent.id])
    ensures ChildrenInOrder(nodes, d.edges)
  {
    forall a, b, p | a in nodes && b in nodes && p in nodes && Edge(p.agent.id, a.agent.id) in d.edges
                     && Edge(p.agent.id, b.agent.id) in d.edges && a.agent.id < b.agent.id
      ensures a.x < b.x
    {
      assert p.agent.id in New(EMPTY, d);
      assert Centred(d, p.agent.id);
      KidsInOrder(d, p.agent.id, a.agent.id, b.agent.id);
    }
  }

  lemma KidsInOrder(d: Drawing, p: int, a: int, b: int)
    requires Centred(d, p) && Edge(p, a) in d.edges && Edge(p, b) in d.edges && a < b
    ensures a in d.placed && b in d.placed && d.placed[a].column < d.placed[b].column
  {
    EdgesMakeKids(d.edges, p, a);
    EdgesMakeKids(d.edges, p, b);
    var kids := Kids(d.edges, p);
    var i :| 0 <= i < |kids| && kids[i] == a;
    var j :| 0 <= j < |kids| && kids[j] == b;
    assert i < j;
  }

  /** The rightmost box is that of the last leaf, so the leaves set the width. */
  lemma LeavesSetWidth(agents: seq<Agent>, nodes: seq<Node>, d: Drawing, family: Family, tops: set<int>, width: real)
    requires Grove(d, family, tops) && d.placed.Keys == Ids(agents) && Boxes(agents, nodes, d.placed)
    requires forall n <- nodes :: Inside(n, width, n.y + 92.0)
    requires nodes != [] ==> exists n <- nodes :: n.x + 184.0 + 24.0 == width
    ensures NoWiderThanNeeded(agents, d.edges, width)
  {
    if agents != [] {
      ColumnsAreLeaves(d);
      assert Leaves(d) == set id <- Ids(agents) | Kids(d.edges, id) == [];
      assert agents[0].id in New(EMPTY, d);
      var widest :| widest in nodes && widest.x + 184.0 + 24.0 == width;
      NodeColumn(agents, nodes, d, widest);
      var last := LastColumn(agents, nodes, d);
    }
  }

  lemma LastColumn(agents: seq<Agent>, nodes: seq<Node>, d: Drawing) returns (n: Node)
    requires d.placed.Keys == Ids(agents) && Boxes(agents, nodes, d.placed) && d.next > 0
    requires exists leaf <- Leaves(d) :: d.placed[leaf].column == d.next as real - 1.0
    ensures n in nodes && n.x == 24.0 + (d.next as real - 1.0) * 200.0
  {
    var leaf :| leaf in Leaves(d) && d.placed[leaf].column == d.next as real - 1.0;
    var a :| a in agents && a.id == leaf;
    var i :| 0 <= i < |agents| && agents[i] == a;
    n := nodes[i];
  }

  lemma NodeColumn(agents: seq<Agent>, nodes: seq<Node>, d: Drawing, n: Node)
    requires Spread(EMPTY, d, 0) && Boxes(agents, nodes, d.placed) && n in nodes
    ensures n.x <= 24.0 + (d.next as real - 1.0) * 200.0
  {
    var i :| 0 <= i < |nodes| && nodes[i] == n;
    assert agents[i].id in New(EMPTY, d);
  }

  method MakeNodes(agents: seq<Agent>, placed: map<int, Spot>) returns (nodes: seq<Node>)
    requires forall a <- agents :: a.id in placed
    ensures Boxes(agents, nodes, placed)
  {
    nodes := [];
    for i := 0 to |agents|
      invariant Boxes(agents[..i], nodes, placed)
    {
      assert agents[i] in agents;
      nodes := nodes + [NodeAt(agents[i], placed[agents[i].id])];
    }
    assert agents[..|agents|] == agents;
  }

  lemma DrawingIsLayout(agents: seq<Agent>, nodes: seq<Node>, d: Drawing, family: Family, roots: set<int>, tops: set<int>)
    requires UniqueIds(agents) && Grove(d, family, tops) && d.placed.Keys == Ids(agents) && Boxes(agents, nodes, d.placed)
    requires Matches(agents, family, roots) && GroundedLinksDrawn(agents, d.edges)
    ensures Shows(agents, nodes)
    ensures forall i, j :: 0 <= i < j < |nodes| ==> Clear(nodes[i], nodes[j])
    ensures TopsInFirstRow(nodes, d.edges) && ChildrenInOrder(nodes, d.edges)
    ensures ForestOfLinks(agents, nodes, d.edges)
    ensures AllLinksDrawn(agents, d.edges) <==> Acyclic(agents)
    ensures ParentsCentred(nodes, d.edges)
  {
    BoxesAreNodes(agents, nodes, d, family, tops);
    BoxesClear(agents, nodes, d, family, tops);
    EdgesAreForest(agents, nodes, d, family, roots, tops);
    NodesCentred(nodes, d, family, tops);
    LinksDrawnExactlyIfAcyclic(agents, d, family, tops);
    TopsStandFirst(nodes, d, family, tops);
    NodesInOrder(nodes, d, family, tops);
  }

  method DrawAgents(agents: seq<Agent>)
    returns (placed: map<int, Spot>, edges: seq<Edge>, ghost d: Drawing, ghost family: Family, ghost roots: set<int>,
             ghost tops: set<int>)
    requires UniqueIds(agents)
    ensures d.placed == placed && d.edges == edges && placed.Keys == Ids(agents)
    ensures Matches(agents, family, roots) && Grove(d, family, tops)
    ensures GroundedLinksDrawn(agents, edges) && LinksDrawnExactly(agents, edges)
  {
    var sorted := SortById(agents);
    SortSorts(agents);
    var children, first := BuildFamily(agents, sorted);
    FamilyIsOrderly(agents, sorted, children, first);
    FamilyMatches(agents, sorted, children, first);
    family, roots := children, SetOf(first);
    var l: Layout;
    l, tops := DrawRoster(agents, sorted, children, first);
    placed, edges, d := l.placed, l.edges, l.State();
  }

  method MeasureDrawing(agents: seq<Agent>, nodes: seq<Node>, ghost d: Drawing, ghost family: Family, ghost tops: set<int>)
    returns (width: real, height: real)
    requires Grove(d, family, tops) && d.placed.Keys == Ids(agents) && Boxes(agents, nodes, d.placed)
    ensures forall n <- nodes :: Inside(n, width, height)
    ensures nodes == [] ==> width == 0.0 && height == 0.0
    ensures NoWiderThanNeeded(agents, d.edges, width)
    ensures nodes != [] ==> exists n <- nodes :: n.y + 68.0 + 24.0 == height
  {
    BoxesAreNodes(agents, nodes, d, family, tops);
    width, height := Measure(nodes);
    LeavesSetWidth(agents, nodes, d, family, tops, width);
  }

  /**
   * Lays the roster out: every agent once, boxes well apart and all inside the reported bounds, which are no larger than
   * that takes; the edges are a forest of parent links, all of them where the chain of parents ends; every parent is centred
   * over its children, who stand in order; agents without children take one column each.
   */
  method LayoutAgents(agents: seq<Agent>) returns (nodes: seq<Node>, edges: seq<Edge>, width: real, height: real)
    requires UniqueIds(agents)
    ensures Shows(agents, nodes)
    ensures forall i, j :: 0 <= i < j < |nodes| ==> Clear(nodes[i], nodes[j])
    ensures forall n <- nodes :: Inside(n, width, height)
    ensures nodes == [] ==> width == 0.0 && height == 0.0
    ensures NoWiderThanNeeded(agents, edges, width)
    ensures nodes != [] ==> exists n <- nodes :: n.y + 68.0 + 24.0 == height
    ensures TopsInFirstRow(nodes, edges) && ChildrenInOrder(nodes, edges)
    ensures ForestOfLinks(agents, nodes, edges)
    ensures GroundedLinksDrawn(agents, edges)
    ensures LinksDrawnExactly(agents, edges)
    ensures AllLinksDrawn(agents, edges) <==> Acyclic(agents)
    ensures ParentsCentred(nodes, edges)
  {
    var placed: map<int, Spot>;
    ghost var d, family, roots, tops;
    placed, edges, d, family, roots, tops := DrawAgents(agents);
    nodes := MakeNodes(agents, placed);
    DrawingIsLayout(agents, nodes, d, family, roots, tops);
    width, height := MeasureDrawing(agents, nodes, d, family, tops);
  }
}
