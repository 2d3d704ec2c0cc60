/** Which parent links a drawing keeps: those of agents whose chain of parents ends, or holds an agent of lower id. */
module AgentGraphLinks {
  import opened AgentGraphModel
  import opened Wrappers

  ghost predicate HasParent(agents: seq<Agent>, c: int) {
    exists p <- Ids(agents) :: Link(agents, p, c)
  }

  lemma ParentIsUnique(agents: seq<Agent>, p: int, q: int, c: int)
    requires UniqueIds(agents) && Link(agents, p, c) && Link(agents, q, c)
    ensures p == q
  {
    var a :| a in agents && a.id == c && a.parent == Some(p);
    var b :| b in agents && b.id == c && b.parent == Some(q);
    var i :| 0 <= i < |agents| && agents[i] == a;
    var j :| 0 <= j < |agents| && agents[j] == b;
    assert i == j;
  }

  ghost function TheParent(agents: seq<Agent>, c: int): int
    requires HasParent(agents, c)
  {
    var p :| p in Ids(agents) && Link(agents, p, c);
    p
  }

  /** The agent this many links up, if the chain of parents is that long. */
  ghost function Above(agents: seq<Agent>, c: int, n: nat): Option<int>
    decreases n
  {
    if n == 0 then Some(c)
    else if HasParent(agents, c) then Above(agents, TheParent(agents, c), n - 1)
    else None
  }

  ghost predicate ChainEnds(agents: seq<Agent>, c: int) {
    exists n: nat :: Above(agents, c, n) == None
  }

  ghost predicate LowerAbove(agents: seq<Agent>, c: int) {
    exists n: nat :: Above(agents, c, n).Some? && Above(agents, c, n).value < c
  }

  /** The condition under which an agent hangs from its parent in the drawing. */
  ghost predicate KeepsLink(agents: seq<Agent>, c: int) {
    ChainEnds(agents, c) || LowerAbove(agents, c)
  }

  lemma OneMoreLink(agents: seq<Agent>, p: int, c: int, n: nat)
    requires UniqueIds(agents) && Link(agents, p, c)
    ensures Above(agents, c, n + 1) == Above(agents, p, n)
  {
    assert p in Ids(agents);
    ParentIsUnique(agents, p, TheParent(agents, c), c);
  }

  lemma {:induction false} AboveIsInRoster(agents: seq<Agent>, c: int, n: nat)
    requires c in Ids(agents) && Above(agents, c, n).Some?
    ensures Above(agents, c, n).value in Ids(agents)
    decreases n
  {
    if n > 0 {
      AboveIsInRoster(agents, TheParent(agents, c), n - 1);
    }
  }

  /** Every placed agent's children are placed. */
  predicate ChildrenPlaced(d: Drawing, family: Family) {
    forall n <- d.placed :: forall c <- ChildrenOf(family, n) :: c in d.placed
  }

  lemma GrovePlacesChildren(d: Drawing, family: Family, tops: set<int>)
    requires Grove(d, family, tops)
    ensures ChildrenPlaced(d, family)
  {
    forall n | n in d.placed
      ensures forall c <- ChildrenOf(family, n) :: c in d.placed
    {
      assert n in New(EMPTY, d);
    }
  }

  lemma ChildIsPlaced(agents: seq<Agent>, d: Drawing, family: Family, c: int)
    requires ListsLinks(agents, family) && ChildrenPlaced(d, family)
    requires c in Ids(agents) && HasParent(agents, c) && TheParent(agents, c) in d.placed
    ensures c in d.placed
  {
    assert c in ChildrenOf(family, TheParent(agents, c));
  }

  /** Whoever is below a placed agent is placed. */
  lemma {:induction false} PlacedBelow(agents: seq<Agent>, d: Drawing, family: Family, c: int, n: nat)
    requires ListsLinks(agents, family) && ChildrenPlaced(d, family) && c in Ids(agents)
    requires Above(agents, c, n).Some? && Above(agents, c, n).value in d.placed
    ensures c in d.placed
    decreases n
  {
    if n > 0 {
      PlacedBelow(agents, d, family, TheParent(agents, c), n - 1);
      ChildIsPlaced(agents, d, family, c);
    }
  }

  ghost predicate ParentedOrPlaced(agents: seq<Agent>, d: Drawing, r: int) {
    HasParent(agents, r) || r in d.placed
  }

  ghost predicate ParentlessPlaced(agents: seq<Agent>, d: Drawing) {
    forall r {:trigger ParentedOrPlaced(agents, d, r)} | r in Ids(agents) :: ParentedOrPlaced(agents, d, r)
  }

  /** Whoever's chain of parents ends is placed once the agents without parent are. */
  lemma {:induction false} EndingIsPlaced(agents: seq<Agent>, d: Drawing, family: Family, c: int, n: nat)
    requires ListsLinks(agents, family) && ChildrenPlaced(d, family) && ParentlessPlaced(agents, d)
    requires c in Ids(agents) && Above(agents, c, n) == None
    ensures c in d.placed
    decreases n
  {
    assert ParentedOrPlaced(agents, d, c);
    if HasParent(agents, c) {
      EndingIsPlaced(agents, d, family, TheParent(agents, c), n - 1);
      ChildIsPlaced(agents, d, family, c);
    }
  }

  /** The parent that an edge draws, one row up. */
  lemma ParentDrawn(agents: seq<Agent>, d: Drawing, family: Family, members: set<int>, to: set<int>, edges: seq<Edge>, c: int)
    returns (p: int)
    requires ListsLinks(agents, family) && AllDrawn(d, family, members, to, edges) && ReachOnce(edges, to) && c in to
    ensures p in members && p in d.placed && c in d.placed && Link(agents, p, c)
    ensures d.placed[p].depth + 1 == d.placed[c].depth
  {
    var e :| e in edges && e.to == c;
    assert Drawn(d, family, members, to, e);
    p := e.from;
  }

  /** Drawn edges lead from everyone up to a top. */
  lemma {:induction false} TopIsAbove(agents: seq<Agent>, d: Drawing, family: Family, members: set<int>, tops: set<int>,
                                      edges: seq<Edge>, c: int) returns (n: nat)
    requires UniqueIds(agents) && ListsLinks(agents, family)
    requires AllDrawn(d, family, members, members - tops, edges) && ReachOnce(edges, members - tops)
    requires c in members && c in d.placed
    ensures Above(agents, c, n).Some? && Above(agents, c, n).value in tops
    decreases d.placed[c].depth
  {
    if c in tops {
      n := 0;
    } else {
      var p := ParentDrawn(agents, d, family, members, members - tops, edges, c);
      var m := TopIsAbove(agents, d, family, members, tops, edges, p);
      OneMoreLink(agents, p, c, m);
      n := m + 1;
    }
  }

  /** What the tops of a drawing are: agents without parent, or agents whose chain neither ends nor holds a lower id. */
  ghost predicate TopsExplained(agents: seq<Agent>, d: Drawing, roots: set<int>, tops: set<int>) {
    && (forall t <- tops :: t in roots || !KeepsLink(agents, t))
    && (forall c <- d.placed :: c in tops || KeepsLink(agents, c))
    && (forall c <- Ids(agents) :: ChainEnds(agents, c) ==> c in d.placed)
  }

  lemma RootsExplained(agents: seq<Agent>, d: Drawing, family: Family, roots: set<int>)
    requires UniqueIds(agents) && Matches(agents, family, roots) && Grove(d, family, roots)
    requires roots <= Ids(agents)
    ensures TopsExplained(agents, d, roots, roots)
  {
    GrovePlacesChildren(d, family, roots);
    forall c | c in d.placed && c !in roots
      ensures ChainEnds(agents, c)
    {
      var n := TopIsAbove(agents, d, family, d.placed.Keys, roots, d.edges, c);
      EndsAboveRoot(agents, c, n);
    }
    forall c | c in Ids(agents) && ChainEnds(agents, c)
      ensures c in d.placed
    {
      var n: nat :| Above(agents, c, n) == None;
      EndingIsPlaced(agents, d, family, c, n);
    }
  }

  lemma {:induction false} EndsAboveRoot(agents: seq<Agent>, c: int, n: nat)
    requires Above(agents, c, n).Some? && !HasParent(agents, Above(agents, c, n).value)
    ensures Above(agents, c, n + 1) == None
    decreases n
  {
    if n > 0 {
      EndsAboveRoot(agents, TheParent(agents, c), n - 1);
    }
  }

  /** The next agent still missing, lowest id first, becomes a top for good reason. */
  lemma MissingExplained(agents: seq<Agent>, d: Drawing, family: Family, roots: set<int>, tops: set<int>, id: int)
    requires ListsLinks(agents, family) && Grove(d, family, tops) && TopsExplained(agents, d, roots, tops)
    requires id in Ids(agents) && id !in d.placed && forall x <- Ids(agents) :: x < id ==> x in d.placed
    ensures !KeepsLink(agents, id)
  {
    GrovePlacesChildren(d, family, tops);
    if n: nat :| Above(agents, id, n).Some? && Above(agents, id, n).value < id {
      AboveIsInRoster(agents, id, n);
      PlacedBelow(agents, d, family, id, n);
    }
  }

  /** Everyone in a tree drawn from its agent of lowest id has that one above. */
  lemma LowestIsAbove(agents: seq<Agent>, d: Drawing, family: Family, members: set<int>, id: int, edges: seq<Edge>, c: int)
    requires UniqueIds(agents) && ListsLinks(agents, family)
    requires AllDrawn(d, family, members, members - {id}, edges) && ReachOnce(edges, members - {id})
    requires c in members && c in d.placed && id < c
    ensures LowerAbove(agents, c)
  {
    var n := TopIsAbove(agents, d, family, members, {id}, edges, c);
    assert Above(agents, c, n) == Some(id);
  }

  lemma TopJoins(agents: seq<Agent>, d: Drawing, d2: Drawing, roots: set<int>, tops: set<int>, id: int)
    requires TopsExplained(agents, d, roots, tops) && d.placed.Keys <= d2.placed.Keys
    requires !KeepsLink(agents, id) && forall c <- New(d, d2) :: c == id || LowerAbove(agents, c)
    ensures TopsExplained(agents, d2, roots, tops + {id})
  {
    forall c | c in d2.placed
      ensures c in tops + {id} || KeepsLink(agents, c)
    {
      assert c in d.placed || c in New(d, d2);
    }
  }

  lemma TreeExplained(agents: seq<Agent>, d: Drawing, d2: Drawing, family: Family, roots: set<int>, tops: set<int>, id: int)
    requires UniqueIds(agents) && ListsLinks(agents, family) && Grove(d, family, tops) && Tree(d, d2, family, id, 0)
    requires TopsExplained(agents, d, roots, tops) && d2.placed.Keys <= Ids(agents)
    requires forall x <- Ids(agents) :: x < id ==> x in d.placed
    ensures TopsExplained(agents, d2, roots, tops + {id})
  {
    MissingExplained(agents, d, family, roots, tops, id);
    forall c | c in New(d, d2) && c != id
      ensures LowerAbove(agents, c)
    {
      assert c in Ids(agents) && c !in d.placed;
      LowestIsAbove(agents, d2, family, New(d, d2), id, NewEdges(d, d2), c);
    }
    TopJoins(agents, d, d2, roots, tops, id);
  }

  /** In a whole drawing, a link is drawn exactly if its lower end keeps it. */
  ghost predicate LinksDrawnExactly(agents: seq<Agent>, edges: seq<Edge>) {
    forall p <- Ids(agents), c <- Ids(agents) | Link(agents, p, c) :: Edge(p, c) in edges <==> KeepsLink(agents, c)
  }

  lemma ExplainedLinks(agents: seq<Agent>, d: Drawing, family: Family, roots: set<int>, tops: set<int>)
    requires Orderly(family, Ids(agents)) && Matches(agents, family, roots) && Grove(d, family, tops)
    requires d.placed.Keys == Ids(agents) && TopsExplained(agents, d, roots, tops)
    ensures LinksDrawnExactly(agents, d.edges)
  {
    forall p, c | p in Ids(agents) && c in Ids(agents) && Link(agents, p, c)
      ensures Edge(p, c) in d.edges <==> KeepsLink(agents, c)
    {
      if Edge(p, c) in d.edges {
        assert Drawn(d, family, d.placed.Keys, d.placed.Keys - tops, Edge(p, c));
      }
      if c !in tops {
        PlacedIsDrawn(d, family, Ids(agents), tops, p, c);
      }
    }
  }

  /** A roster with a cycle of two and an agent of lower id that hangs from it: nothing above that one is lower. */
  const BESIDE_A_CYCLE := [Agent(1, Some(2)), Agent(2, Some(3)), Agent(3, Some(2))]

  lemma {:induction false} NothingLowerBesideACycle(n: nat)
    ensures var up := Above(BESIDE_A_CYCLE, 2, n); up == Some(2) || up == Some(3)
    ensures var up := Above(BESIDE_A_CYCLE, 3, n); up == Some(2) || up == Some(3)
  {
    if n > 0 {
      LinksBesideACycle();
      OneMoreLink(BESIDE_A_CYCLE, 3, 2, n - 1);
      OneMoreLink(BESIDE_A_CYCLE, 2, 3, n - 1);
      NothingLowerBesideACycle(n - 1);
    }
  }

  lemma LinksBesideACycle()
    ensures UniqueIds(BESIDE_A_CYCLE) && Ids(BESIDE_A_CYCLE) == {1, 2, 3}
    ensures Link(BESIDE_A_CYCLE, 2, 1) && Link(BESIDE_A_CYCLE, 3, 2) && Link(BESIDE_A_CYCLE, 2, 3)
  {
    var agents := BESIDE_A_CYCLE;
    assert agents[0] in agents && agents[1] in agents && agents[2] in agents;
  }

  /** So its link, from 2 to 1, is dropped, although 1 is on no cycle. */
  lemma DroppedBesideACycle(edges: seq<Edge>)
    requires LinksDrawnExactly(BESIDE_A_CYCLE, edges)
    ensures Link(BESIDE_A_CYCLE, 2, 1) && Edge(2, 1) !in edges
  {
    LinksBesideACycle();
    forall n: nat
      ensures Above(BESIDE_A_CYCLE, 1, n).Some? && Above(BESIDE_A_CYCLE, 1, n).value >= 1
    {
      if n > 0 {
        OneMoreLink(BESIDE_A_CYCLE, 2, 1, n - 1);
        NothingLowerBesideACycle(n - 1);
      }
    }
  }
}
