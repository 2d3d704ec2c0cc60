/** The agent graph: a top-down drawing of the roster's parent links, cycles included. */
module AgentGraphModel {
  import opened Wrappers
  import opened Sequences

  datatype Agent = Agent(id: int, parent: Option<int>)

  datatype Spot = Spot(column: real, depth: nat)

  datatype Edge = Edge(from: int, to: int)

  /** A drawing in progress: who is placed where, which links are drawn, and the next free leaf column. */
  datatype Drawing = Drawing(placed: map<int, Spot>, edges: seq<Edge>, next: nat)

  predicate UniqueIds(agents: seq<Agent>) {
    forall i, j :: 0 <= i < j < |agents| ==> agents[i].id != agents[j].id
  }

  function Ids(agents: seq<Agent>): set<int> {
    set a <- agents :: a.id
  }

  /** The links to draw: an agent's parent, if that is another agent of the roster. */
  predicate Link(agents: seq<Agent>, parent: int, child: int) {
    parent != child && parent in Ids(agents) && exists a <- agents :: a.id == child && a.parent == Some(parent)
  }

  /** The children of every agent, each a sequence of ids. */
  type Family = map<int, seq<int>>

  function ChildrenOf(family: Family, id: int): seq<int> {
    if id in family then family[id] else []
  }

  /** Everyone's children are of the roster, listed by increasing id, and listed under one parent only. */
  predicate Orderly(family: Family, roster: set<int>) {
    && (forall p <- family :: p in roster && forall c <- family[p] :: c in roster && c != p)
    && (forall p <- family :: forall i, j :: 0 <= i < j < |family[p]| ==> family[p][i] < family[p][j])
    && (forall p, q, c | p in family && q in family && c in family[p] && c in family[q] :: p == q)
  }

  // ------------------------------------------------------------------ what a drawn subtree is

  function New(d0: Drawing, d1: Drawing): set<int> {
    d1.placed.Keys - d0.placed.Keys
  }

  function NewEdges(d0: Drawing, d1: Drawing): seq<Edge>
    requires d0.edges <= d1.edges
  {
    d1.edges[|d0.edges|..]
  }

  predicate Apart(a: Spot, b: Spot) {
    a.depth == b.depth ==> a.column - b.column >= 1.0 || b.column - a.column >= 1.0
  }

  /** The children drawn under an agent, in drawing order. */
  function Kids(edges: seq<Edge>, id: int): seq<int> {
    if edges == [] then []
    else
      var n := |edges| - 1;
      Kids(edges[..n], id) + if edges[n].from == id then [edges[n].to] else []
  }

  /** These agents stand in this order from left to right. */
  predicate LeftToRight(placed: map<int, Spot>, kids: seq<int>) {
    && (forall k <- kids :: k in placed)
    && forall i, j :: 0 <= i < j < |kids| ==> placed[kids[i]].column < placed[kids[j]].column
  }

  predicate Midway(placed: map<int, Spot>, id: int, kids: seq<int>)
    requires id in placed
  {
    kids != [] ==>
      && kids[0] in placed && kids[|kids| - 1] in placed
      && placed[id].column == (placed[kids[0]].column + placed[kids[|kids| - 1]].column) / 2.0
  }

  /** A parent's children stand by increasing id from left to right, and it sits midway between the first and the last. */
  predicate Centred(d: Drawing, id: int) {
    var kids := Kids(d.edges, id);
    && id in d.placed
    && Ascending(kids) && LeftToRight(d.placed, kids)
    && Midway(d.placed, id, kids)
  }

  /** Nothing already drawn moves. */
  predicate Extends(d0: Drawing, d1: Drawing) {
    && d0.placed.Keys <= d1.placed.Keys
    && (forall n | n in d0.placed :: d1.placed[n] == d0.placed[n])
    && d0.edges <= d1.edges
    && d0.next <= d1.next
  }

  /** New agents stand in the columns taken meanwhile, apart from each other, and no higher than `depth`. */
  predicate Spread(d0: Drawing, d1: Drawing, depth: nat) {
    && (forall n <- New(d0, d1) ::
          && d0.next as real <= d1.placed[n].column <= d1.next as real - 1.0
          && d1.placed[n].depth >= depth)
    && (forall a, b | a in New(d0, d1) && b in New(d0, d1) && a != b :: Apart(d1.placed[a], d1.placed[b]))
  }

  /** A leaf in a column of its own. */
  predicate LeafAt(d: Drawing, n: int, k: nat) {
    n in d.placed && Kids(d.edges, n) == [] && d.placed[n].column == k as real
  }

  predicate Taken(ns: set<int>, d: Drawing, k: nat) {
    exists n <- ns :: LeafAt(d, n, k)
  }

  ghost predicate HasColumn(d: Drawing, n: int, lo: nat, hi: nat) {
    exists k: nat :: lo <= k < hi && LeafAt(d, n, k)
  }

  /** The columns from `lo` to before `hi` are those of the leaves among `ns`, one each. */
  ghost predicate Covers(ns: set<int>, d: Drawing, lo: nat, hi: nat) {
    && (forall k: nat | lo <= k < hi :: Taken(ns, d, k))
    && (forall n <- ns | Kids(d.edges, n) == [] :: HasColumn(d, n, lo, hi))
    && (forall a, b, k: nat | a in ns && b in ns && LeafAt(d, a, k) && LeafAt(d, b, k) :: a == b)
  }

  /** Each column taken meanwhile is that of exactly one of the new leaves. */
  ghost predicate Packed(d0: Drawing, d1: Drawing) {
    Covers(New(d0, d1), d1, d0.next, d1.next)
  }

  /** Both ends of a drawn edge are placed, one row apart, and the edge is a link. */
  predicate Drawn(d: Drawing, family: Family, hosts: set<int>, to: set<int>, e: Edge) {
    && e.from in hosts && e.to in to && e.to in ChildrenOf(family, e.from)
    && e.from in d.placed && e.to in d.placed
    && d.placed[e.to].depth == d.placed[e.from].depth + 1
  }

  predicate AllDrawn(d: Drawing, family: Family, hosts: set<int>, to: set<int>, edges: seq<Edge>) {
    forall e <- edges :: Drawn(d, family, hosts, to, e)
  }

  /** The edges of a sequence reach each agent of `to` exactly once. */
  predicate ReachOnce(edges: seq<Edge>, to: set<int>) {
    && (forall i, j :: 0 <= i < j < |edges| ==> edges[i].to != edges[j].to)
    && (forall n <- to :: exists e <- edges :: e.to == n)
  }

  /** The new edges are links from `hosts` to the agents of `to`, one each, one row down. */
  predicate Joined(d0: Drawing, d1: Drawing, family: Family, hosts: set<int>, to: set<int>)
    requires d0.edges <= d1.edges
  {
    && AllDrawn(d1, family, hosts, to, NewEdges(d0, d1))
    && ReachOnce(NewEdges(d0, d1), to)
  }

  /** Every new agent is centred, and none of its children is left out. */
  predicate Finished(d0: Drawing, d1: Drawing, family: Family) {
    forall n <- New(d0, d1) :: Centred(d1, n) && forall c <- ChildrenOf(family, n) :: c in d1.placed
  }

  /** A drawing whose edges all start at placed agents. */
  predicate Rooted(d: Drawing) {
    forall e <- d.edges :: e.from in d.placed
  }

  /** From `d0` to `d1`, some children of `host` were drawn one row down, each with its whole subtree. */
  ghost predicate Branches(d0: Drawing, d1: Drawing, family: Family, host: int, depth: nat) {
    && Extends(d0, d1)
    && Spread(d0, d1, depth + 1)
    && host in d0.placed && d0.placed[host].depth == depth
    && Joined(d0, d1, family, New(d0, d1) + {host}, New(d0, d1))
    && Finished(d0, d1, family)
    && Packed(d0, d1)
    && (forall k <- Kids(d1.edges, host) :: k in New(d0, d1)) && LeftToRight(d1.placed, Kids(d1.edges, host))
    && Rooted(d1)
  }

  /** From `d0` to `d1`, the subtree of `top` was drawn at `depth`. */
  ghost predicate Tree(d0: Drawing, d1: Drawing, family: Family, top: int, depth: nat) {
    && Extends(d0, d1)
    && d0.next < d1.next
    && Spread(d0, d1, depth)
    && top in New(d0, d1) && d1.placed[top].depth == depth
    && Joined(d0, d1, family, New(d0, d1), New(d0, d1) - {top})
    && Finished(d0, d1, family)
    && Packed(d0, d1)
    && Rooted(d1)
  }

  // ------------------------------------------------------------------ drawing one more subtree

  lemma {:induction false} KidsAppend(first: seq<Edge>, second: seq<Edge>, id: int)
    ensures Kids(first + second, id) == Kids(first, id) + Kids(second, id)
  {
    if second == [] {
      assert first + second == first;
    } else {
      var n := |second| - 1;
      assert (first + second)[..|first + second| - 1] == first + second[..n];
      KidsAppend(first, second[..n], id);
    }
  }

  lemma {:induction false} KidsAreDrawn(edges: seq<Edge>, id: int)
    ensures forall k <- Kids(edges, id) :: Edge(id, k) in edges
  {
    if edges != [] {
      var n := |edges| - 1;
      KidsAreDrawn(edges[..n], id);
      assert edges == edges[..n] + [edges[n]];
    }
  }

  lemma KidsAreTargets(edges: seq<Edge>, id: int)
    ensures forall k <- Kids(edges, id) :: Edge(id, k) in edges
    ensures (forall e <- edges :: e.from != id) ==> Kids(edges, id) == []
  {
    KidsAreDrawn(edges, id);
    if Kids(edges, id) != [] {
      var k := Kids(edges, id)[0];
      assert k in Kids(edges, id) && Edge(id, k) in edges;
    }
  }

  lemma LeftToRightStays(placed: map<int, Spot>, placed1: map<int, Spot>, kids: seq<int>)
    requires LeftToRight(placed, kids) && forall k <- kids :: k in placed1 && placed1[k] == placed[k]
    ensures LeftToRight(placed1, kids)
  {
    forall i, j | 0 <= i < j < |kids|
      ensures kids[i] in placed1 && kids[j] in placed1 && placed1[kids[i]].column < placed1[kids[j]].column
    {
      var a, b := kids[i], kids[j];
      assert a in kids && b in kids;
      assert placed1[a] == placed[a] && placed1[b] == placed[b];
    }
  }

  lemma MidwayStays(placed: map<int, Spot>, placed1: map<int, Spot>, id: int, kids: seq<int>)
    requires id in placed && id in placed1 && placed1[id] == placed[id] && Midway(placed, id, kids)
    requires forall k <- kids :: k in placed && k in placed1 && placed1[k] == placed[k]
    ensures Midway(placed1, id, kids)
  {
    if kids != [] {
      var a, b := kids[0], kids[|kids| - 1];
      assert a in kids && b in kids;
    }
  }

  /** Drawing elsewhere leaves an agent's children, and so its centring, as they were. */
  lemma CentringStays(d: Drawing, d1: Drawing, id: int)
    requires Extends(d, d1) && Centred(d, id)
    requires forall e <- NewEdges(d, d1) :: e.from != id
    ensures Centred(d1, id) && Kids(d1.edges, id) == Kids(d.edges, id)
  {
    KidsStay(d.edges, d1.edges, NewEdges(d, d1), id);
    LeftToRightStays(d.placed, d1.placed, Kids(d.edges, id));
    MidwayStays(d.placed, d1.placed, id, Kids(d.edges, id));
  }

  lemma KidsStay(edges: seq<Edge>, edges1: seq<Edge>, more: seq<Edge>, id: int)
    requires edges1 == edges + more && forall e <- more :: e.from != id
    ensures Kids(edges1, id) == Kids(edges, id)
  {
    KidsAppend(edges, more, id);
    KidsAreTargets(more, id);
  }

  function WithEdge(d: Drawing, e: Edge): Drawing {
    d.(edges := d.edges + [e])
  }

  /** The edges of a branch drawn after others: the others', the link to its top, and its own. */
  lemma EdgesOfBranch(d0: Drawing, d1: Drawing, d2: Drawing, e: Edge)
    requires Extends(d0, d1) && Extends(WithEdge(d1, e), d2)
    ensures d0.edges <= d2.edges && NewEdges(d0, d2) == NewEdges(d0, d1) + [e] + NewEdges(WithEdge(d1, e), d2)
  {
  }

  lemma SpreadGrows(d0: Drawing, d1: Drawing, d2: Drawing, depth: nat)
    requires Extends(d0, d1) && Extends(d1, d2) && Spread(d0, d1, depth) && Spread(d1, d2, depth)
    ensures Spread(d0, d2, depth)
  {
    forall a, b | a in New(d0, d2) && b in New(d0, d2) && a != b
      ensures Apart(d2.placed[a], d2.placed[b])
    {
      if a in New(d0, d1) && b in New(d1, d2) {
        assert d2.placed[a].column <= d1.next as real - 1.0 && d1.next as real <= d2.placed[b].column;
      }
      if b in New(d0, d1) && a in New(d1, d2) {
        assert d2.placed[b].column <= d1.next as real - 1.0 && d1.next as real <= d2.placed[a].column;
      }
    }
  }

  lemma ReachOnceJoins(first: seq<Edge>, second: seq<Edge>, to1: set<int>, to2: set<int>)
    requires ReachOnce(first, to1) && ReachOnce(second, to2) && to1 !! to2
    requires forall x <- first :: x.to in to1
    requires forall x <- second :: x.to in to2
    ensures ReachOnce(first + second, to1 + to2)
  {
    var all := first + second;
    forall n | n in to1 + to2
      ensures exists x <- all :: x.to == n
    {
      if n in to1 {
        var x :| x in first && x.to == n;
        assert x in all;
      } else {
        var x :| x in second && x.to == n;
        assert x in all;
      }
    }
    forall i, j | 0 <= i < j < |all|
      ensures all[i].to != all[j].to
    {
      var n := |first|;
      assert i < n ==> all[i] == first[i] && first[i] in first;
      assert j >= n ==> all[j] == second[j - n] && second[j - n] in second;
      assert i >= n ==> all[i] == second[i - n];
    }
  }

  lemma ReachOnceGrows(first: seq<Edge>, e: Edge, second: seq<Edge>, to1: set<int>, to2: set<int>)
    requires ReachOnce(first, to1) && ReachOnce(second, to2)
    requires forall x <- first :: x.to in to1
    requires forall x <- second :: x.to in to2
    requires to1 !! to2 && e.to !in to1 && e.to !in to2
    ensures ReachOnce(first + [e] + second, to1 + {e.to} + to2)
  {
    assert e in [e];
    ReachOnceJoins(first, [e], to1, {e.to});
    ReachOnceJoins(first + [e], second, to1 + {e.to}, to2);
  }

  lemma AllDrawnStays(d1: Drawing, d2: Drawing, family: Family, hosts: set<int>, to: set<int>,
                      hosts2: set<int>, to2: set<int>, edges: seq<Edge>)
    requires Extends(d1, d2) && AllDrawn(d1, family, hosts, to, edges) && hosts <= hosts2 && to <= to2
    ensures AllDrawn(d2, family, hosts2, to2, edges)
  {
    forall e | e in edges
      ensures Drawn(d2, family, hosts2, to2, e)
    {
      assert Drawn(d1, family, hosts, to, e);
      assert d2.placed[e.from] == d1.placed[e.from] && d2.placed[e.to] == d1.placed[e.to];
    }
  }

  lemma JoinedGrows(d0: Drawing, d1: Drawing, d2: Drawing, family: Family, host: int, child: int)
    requires Extends(d0, d1) && Joined(d0, d1, family, New(d0, d1) + {host}, New(d0, d1))
    requires var d1e := WithEdge(d1, Edge(host, child));
      && Extends(d1e, d2) && child in New(d1e, d2)
      && Joined(d1e, d2, family, New(d1e, d2), New(d1e, d2) - {child})
    requires child in ChildrenOf(family, host) && host in d1.placed && d2.placed[child].depth == d1.placed[host].depth + 1
    ensures d0.edges <= d2.edges && Joined(d0, d2, family, New(d0, d2) + {host}, New(d0, d2))
  {
    var e := Edge(host, child);
    EdgesOfBranch(d0, d1, d2, e);
    var first, second := NewEdges(d0, d1), NewEdges(WithEdge(d1, e), d2);
    var above, below := New(d0, d1), New(WithEdge(d1, e), d2);
    var hosts2, to2 := New(d0, d2) + {host}, New(d0, d2);
    assert to2 == above + {child} + (below - {child});
    AllDrawnStays(d1, d2, family, above + {host}, above, hosts2, to2, first);
    AllDrawnStays(d2, d2, family, below, below - {child}, hosts2, to2, second);
    DrawnNew(d1, d2, family, hosts2, to2, e);
    TargetsIn(d1, family, above + {host}, above, first);
    TargetsIn(d2, family, below, below - {child}, second);
    ReachOnceGrows(first, e, second, above, below - {child});
  }

  lemma TargetsIn(d: Drawing, family: Family, hosts: set<int>, to: set<int>, edges: seq<Edge>)
    requires AllDrawn(d, family, hosts, to, edges)
    ensures forall e <- edges :: e.to in to
  {
    forall e | e in edges
      ensures e.to in to
    {
      assert Drawn(d, family, hosts, to, e);
    }
  }

  lemma DrawnNew(d1: Drawing, d2: Drawing, family: Family, hosts: set<int>, to: set<int>, e: Edge)
    requires Extends(WithEdge(d1, e), d2)
    requires e.from in hosts && e.to in to && e.to in ChildrenOf(family, e.from)
    requires e.from in d1.placed && e.to in d2.placed && d2.placed[e.to].depth == d1.placed[e.from].depth + 1
    ensures Drawn(d2, family, hosts, to, e)
  {
    assert WithEdge(d1, e).placed == d1.placed;
    assert d2.placed[e.from] == d1.placed[e.from];
  }

  /** Drawing a branch under another agent adds no edge from this one. */
  lemma NoEdgeFrom(d1: Drawing, d2: Drawing, family: Family, e: Edge, to: set<int>, n: int)
    requires Extends(WithEdge(d1, e), d2) && n in d1.placed && n != e.from
    requires AllDrawn(d2, family, New(d1, d2), to, NewEdges(WithEdge(d1, e), d2))
    ensures d1.edges <= d2.edges && forall x <- NewEdges(d1, d2) :: x.from != n
  {
    EdgesOfBranch(d1, d1, d2, e);
    forall x | x in NewEdges(d1, d2)
      ensures x.from != n
    {
      if x != e {
        assert x in NewEdges(WithEdge(d1, e), d2);
        assert Drawn(d2, family, New(d1, d2), to, x);
      }
    }
  }

  lemma FinishedStays(d1: Drawing, d2: Drawing, family: Family, e: Edge, to: set<int>, n: int)
    requires Extends(WithEdge(d1, e), d2) && Centred(d1, n) && n != e.from
    requires AllDrawn(d2, family, New(d1, d2), to, NewEdges(WithEdge(d1, e), d2))
    ensures Centred(d2, n)
  {
    NoEdgeFrom(d1, d2, family, e, to, n);
    CentringStays(d1, d2, n);
  }

  lemma FinishedGrows(d0: Drawing, d1: Drawing, d2: Drawing, family: Family, host: int, child: int)
    requires Extends(d0, d1) && host in d0.placed && Finished(d0, d1, family)
    requires var e := Edge(host, child);
      && Extends(WithEdge(d1, e), d2) && Finished(WithEdge(d1, e), d2, family)
      && AllDrawn(d2, family, New(d1, d2), New(d1, d2) - {child}, NewEdges(WithEdge(d1, e), d2))
    ensures Finished(d0, d2, family)
  {
    var e := Edge(host, child);
    forall n | n in New(d0, d2)
      ensures Centred(d2, n) && forall c <- ChildrenOf(family, n) :: c in d2.placed
    {
      if n in New(d0, d1) {
        FinishedStays(d1, d2, family, e, New(d1, d2) - {child}, n);
      } else {
        assert n in New(WithEdge(d1, e), d2);
      }
    }
  }

  /** A leaf stays one while something is drawn elsewhere. */
  lemma LeafStays(d: Drawing, d1: Drawing, n: int)
    requires Extends(d, d1) && n in d.placed && forall e <- NewEdges(d, d1) :: e.from != n
    ensures Kids(d1.edges, n) == Kids(d.edges, n) && forall k: nat :: LeafAt(d1, n, k) <==> LeafAt(d, n, k)
  {
    KidsStay(d.edges, d1.edges, NewEdges(d, d1), n);
    assert d1.placed[n] == d.placed[n];
  }

  ghost predicate SameLeaf(d: Drawing, d1: Drawing, n: int) {
    (Kids(d1.edges, n) == [] <==> Kids(d.edges, n) == []) && forall k: nat :: LeafAt(d1, n, k) <==> LeafAt(d, n, k)
  }

  lemma CoversStay(ns: set<int>, d: Drawing, d1: Drawing, lo: nat, hi: nat)
    requires Covers(ns, d, lo, hi) && forall n <- ns :: SameLeaf(d, d1, n)
    ensures Covers(ns, d1, lo, hi)
  {
    forall k: nat | lo <= k < hi
      ensures Taken(ns, d1, k)
    {
      assert Taken(ns, d, k);
      var n :| n in ns && LeafAt(d, n, k);
      assert SameLeaf(d, d1, n) && LeafAt(d1, n, k);
    }
    forall n | n in ns && Kids(d1.edges, n) == []
      ensures HasColumn(d1, n, lo, hi)
    {
      assert SameLeaf(d, d1, n) && HasColumn(d, n, lo, hi);
      var k: nat :| lo <= k < hi && LeafAt(d, n, k);
      assert LeafAt(d1, n, k);
    }
    forall a, b, k: nat | a in ns && b in ns && LeafAt(d1, a, k) && LeafAt(d1, b, k)
      ensures a == b
    {
      assert SameLeaf(d, d1, a) && SameLeaf(d, d1, b);
      assert LeafAt(d, a, k) && LeafAt(d, b, k);
    }
  }

  lemma ColumnOfLeaf(ns: set<int>, d: Drawing, lo: nat, hi: nat, n: int, k: nat)
    requires Covers(ns, d, lo, hi) && n in ns && LeafAt(d, n, k)
    ensures lo <= k < hi
  {
    assert HasColumn(d, n, lo, hi);
    var i: nat :| lo <= i < hi && LeafAt(d, n, i);
    assert i as real == k as real;
  }

  /** The columns of two drawings in a row are those of the first and those of the second. */
  lemma CoversJoin(ns: set<int>, ms: set<int>, d: Drawing, lo: nat, mid: nat, hi: nat)
    requires lo <= mid <= hi && Covers(ns, d, lo, mid) && Covers(ms, d, mid, hi)
    ensures Covers(ns + ms, d, lo, hi)
  {
    var all := ns + ms;
    forall k: nat | lo <= k < hi
      ensures Taken(all, d, k)
    {
      assert if k < mid then Taken(ns, d, k) else Taken(ms, d, k);
      var n :| (n in ns || n in ms) && LeafAt(d, n, k);
      assert n in all;
    }
    forall n | n in all && Kids(d.edges, n) == []
      ensures HasColumn(d, n, lo, hi)
    {
      assert if n in ns then HasColumn(d, n, lo, mid) else HasColumn(d, n, mid, hi);
    }
    forall a, b, k: nat | a in all && b in all && LeafAt(d, a, k) && LeafAt(d, b, k)
      ensures a == b
    {
      LeafOnOneSide(ns, ms, d, lo, mid, hi, a, k);
      LeafOnOneSide(ns, ms, d, lo, mid, hi, b, k);
    }
  }

  lemma LeafOnOneSide(ns: set<int>, ms: set<int>, d: Drawing, lo: nat, mid: nat, hi: nat, n: int, k: nat)
    requires Covers(ns, d, lo, mid) && Covers(ms, d, mid, hi) && (n in ns || n in ms) && LeafAt(d, n, k)
    ensures if k < mid then n in ns else n in ms
  {
    if n in ns {
      ColumnOfLeaf(ns, d, lo, mid, n, k);
    }
    if n in ms {
      ColumnOfLeaf(ms, d, mid, hi, n, k);
    }
  }

  lemma PackedGrows(d0: Drawing, d1: Drawing, d2: Drawing)
    requires Extends(d0, d1) && Extends(d1, d2) && Packed(d0, d1) && Packed(d1, d2)
    requires forall n <- New(d0, d1), e <- NewEdges(d1, d2) :: e.from != n
    ensures Packed(d0, d2)
  {
    forall n | n in New(d0, d1)
      ensures SameLeaf(d1, d2, n)
    {
      LeafStays(d1, d2, n);
    }
    CoversStay(New(d0, d1), d1, d2, d0.next, d1.next);
    CoversJoin(New(d0, d1), New(d1, d2), d2, d0.next, d1.next, d2.next);
    assert New(d0, d1) + New(d1, d2) == New(d0, d2);
  }

  lemma BranchPacks(d0: Drawing, d1: Drawing, d2: Drawing, family: Family, host: int, child: int)
    requires Extends(d0, d1) && host in d0.placed && Packed(d0, d1)
    requires var d1e := WithEdge(d1, Edge(host, child));
      && Extends(d1e, d2) && Packed(d1e, d2)
      && AllDrawn(d2, family, New(d1, d2), New(d1, d2) - {child}, NewEdges(d1e, d2))
    ensures Packed(d0, d2)
  {
    var e := Edge(host, child);
    forall n, x | n in New(d0, d1) && x in NewEdges(d1, d2)
      ensures x.from != n
    {
      NoEdgeFrom(d1, d2, family, e, New(d1, d2) - {child}, n);
    }
    assert New(WithEdge(d1, e), d2) == New(d1, d2);
    PackedGrows(d0, d1, d2);
  }

  /** The next child stands to the right of the others. */
  lemma ChildComesRight(d0: Drawing, d1: Drawing, d2: Drawing, kids: seq<int>, child: int, depth: nat)
    requires Extends(d0, d1) && Extends(d1, d2) && Spread(d0, d1, depth) && Spread(d1, d2, depth)
    requires (forall k <- kids :: k in New(d0, d1)) && LeftToRight(d1.placed, kids) && child in New(d1, d2)
    ensures (forall k <- kids + [child] :: k in New(d0, d2)) && LeftToRight(d2.placed, kids + [child])
  {
    var all := kids + [child];
    LeftToRightStays(d1.placed, d2.placed, kids);
    forall i, j | 0 <= i < j < |all|
      ensures d2.placed[all[i]].column < d2.placed[all[j]].column
    {
      assert all[i] == kids[i] && kids[i] in kids;
      assert d2.placed[kids[i]] == d1.placed[kids[i]];
      if j < |kids| {
        assert all[j] == kids[j];
      }
    }
  }

  lemma BranchGrows(d0: Drawing, d1: Drawing, d2: Drawing, family: Family, host: int, depth: nat, child: int)
    requires Branches(d0, d1, family, host, depth)
    requires child in ChildrenOf(family, host) && child !in d1.placed
    requires Tree(WithEdge(d1, Edge(host, child)), d2, family, child, depth + 1)
    ensures Branches(d0, d2, family, host, depth)
    ensures Kids(d2.edges, host) == Kids(d1.edges, host) + [child]
  {
    var d1e := WithEdge(d1, Edge(host, child));
    assert New(d1, d2) == New(d1e, d2);
    SpreadGrows(d0, d1, d2, depth + 1);
    assert d1.placed[host] == d0.placed[host];
    JoinedGrows(d0, d1, d2, family, host, child);
    FinishedGrows(d0, d1, d2, family, host, child);
    BranchPacks(d0, d1, d2, family, host, child);
    ChildComesRight(d0, d1, d2, Kids(d1.edges, host), child, depth + 1);
    BranchIsListed(d1, d2, family, host, child);
  }

  lemma BranchIsListed(d1: Drawing, d2: Drawing, family: Family, host: int, child: int)
    requires host in d1.placed
    requires var d1e := WithEdge(d1, Edge(host, child));
      Extends(d1e, d2) && AllDrawn(d2, family, New(d1, d2), New(d1, d2) - {child}, NewEdges(d1e, d2))
    ensures Kids(d2.edges, host) == Kids(d1.edges, host) + [child]
  {
    var e := Edge(host, child);
    var after := NewEdges(WithEdge(d1, e), d2);
    forall x | x in after
      ensures x.from != host
    {
      assert Drawn(d2, family, New(d1, d2), New(d1, d2) - {child}, x);
    }
    KidsAreTargets(after, host);
    KidsGrow(d1.edges, host, child, after);
    assert d2.edges == d1.edges + [e] + after;
  }

  lemma KidsGrow(before: seq<Edge>, host: int, child: int, after: seq<Edge>)
    requires Kids(after, host) == []
    ensures Kids(before + [Edge(host, child)] + after, host) == Kids(before, host) + [child]
  {
    var e := Edge(host, child);
    KidsAppend(before + [e], after, host);
    KidsAppend(before, [e], host);
    assert [e][..0] == [];
  }

  // ------------------------------------------------------------------ closing a subtree

  /** `place` marks an agent before it draws its children. */
  function Marked(d: Drawing, id: int, depth: nat): Drawing {
    d.(placed := d.placed[id := Spot(-1.0, depth)])
  }

  /** The column of an agent whose drawn children are `kids`, and the next free column after it. */
  function ColumnOver(d: Drawing, kids: seq<int>): real
    requires forall k <- kids :: k in d.placed
  {
    if kids == [] then d.next as real
    else
      var first, last := kids[0], kids[|kids| - 1];
      assert first in kids && last in kids;
      (d.placed[first].column + d.placed[last].column) / 2.0
  }

  function Settled(d: Drawing, id: int, depth: nat, kids: seq<int>): Drawing
    requires forall k <- kids :: k in d.placed
  {
    Drawing(d.placed[id := Spot(ColumnOver(d, kids), depth)], d.edges, if kids == [] then d.next + 1 else d.next)
  }

  /** The children of `top` have been drawn, and only it remains. */
  ghost predicate ReadyToSettle(d0: Drawing, d: Drawing, family: Family, top: int, depth: nat) {
    && Rooted(d0) && top !in d0.placed
    && Branches(Marked(d0, top, depth), d, family, top, depth)
    && Ascending(Kids(d.edges, top))
    && forall c <- ChildrenOf(family, top) :: c in d.placed
  }

  /** The children drawn under an agent are among the newly placed. */
  lemma KidsAreNew(d0: Drawing, d: Drawing, family: Family, top: int, depth: nat, id: int)
    requires Rooted(d0) && top !in d0.placed && Branches(Marked(d0, top, depth), d, family, top, depth)
    requires id !in d0.placed
    ensures forall k <- Kids(d.edges, id) :: k in New(Marked(d0, top, depth), d)
  {
    KidsAreTargets(d.edges, id);
    var dm := Marked(d0, top, depth);
    assert d.edges == d0.edges + NewEdges(dm, d);
    forall k | k in Kids(d.edges, id)
      ensures k in New(dm, d)
    {
      var e := Edge(id, k);
      assert e !in d0.edges;
      assert Drawn(d, family, New(dm, d) + {top}, New(dm, d), e);
    }
  }

  lemma SettlingSpreads(d0: Drawing, d: Drawing, top: int, depth: nat)
    requires top !in d0.placed && Extends(Marked(d0, top, depth), d) && Spread(Marked(d0, top, depth), d, depth + 1)
    requires forall k <- Kids(d.edges, top) :: k in New(Marked(d0, top, depth), d)
    ensures var d1 := Settled(d, top, depth, Kids(d.edges, top));
      && Extends(d0, d1) && d0.next < d1.next && Spread(d0, d1, depth)
      && New(d0, d1) == New(Marked(d0, top, depth), d) + {top}
  {
    var dm := Marked(d0, top, depth);
    var kids := Kids(d.edges, top);
    var d1 := Settled(d, top, depth, kids);
    assert New(d0, d1) == New(dm, d) + {top};
    if kids != [] {
      var a, b := kids[0], kids[|kids| - 1];
      assert a in New(dm, d) && b in New(dm, d);
    }
    forall a, b | a in New(d0, d1) && b in New(d0, d1) && a != b
      ensures Apart(d1.placed[a], d1.placed[b])
    {
      assert a != top ==> d1.placed[a] == d.placed[a];
      assert b != top ==> d1.placed[b] == d.placed[b];
    }
  }

  lemma SettlingJoins(d0: Drawing, d: Drawing, family: Family, top: int, depth: nat)
    requires ReadyToSettle(d0, d, family, top, depth)
    requires forall k <- Kids(d.edges, top) :: k in d.placed
    ensures var d1 := Settled(d, top, depth, Kids(d.edges, top));
      d0.edges <= d1.edges && Joined(d0, d1, family, New(Marked(d0, top, depth), d) + {top}, New(Marked(d0, top, depth), d))
  {
    var dm := Marked(d0, top, depth);
    var d1 := Settled(d, top, depth, Kids(d.edges, top));
    assert NewEdges(d0, d1) == NewEdges(dm, d);
    forall e | e in NewEdges(dm, d)
      ensures Drawn(d1, family, New(dm, d) + {top}, New(dm, d), e)
    {
      assert Drawn(d, family, New(dm, d) + {top}, New(dm, d), e);
      assert d.placed[top].depth == depth;
    }
  }

  lemma SettlingCentres(d: Drawing, top: int, depth: nat, n: int)
    requires forall k <- Kids(d.edges, top) :: k in d.placed
    requires n in d.placed && top !in Kids(d.edges, n)
    requires n != top ==> Centred(d, n)
    requires Ascending(Kids(d.edges, n)) && LeftToRight(d.placed, Kids(d.edges, n))
    ensures Centred(Settled(d, top, depth, Kids(d.edges, top)), n)
  {
    var d1 := Settled(d, top, depth, Kids(d.edges, top));
    var kids := Kids(d.edges, n);
    assert forall k <- kids :: k != top;
    LeftToRightStays(d.placed, d1.placed, kids);
    if n == top {
      TopIsMidway(d, d1.placed, top, kids);
    } else {
      MidwayStays(d.placed, d1.placed, n, kids);
    }
  }

  lemma TopIsMidway(d: Drawing, placed1: map<int, Spot>, top: int, kids: seq<int>)
    requires forall k <- kids :: k in d.placed && k in placed1 && placed1[k] == d.placed[k]
    requires top in placed1 && placed1[top].column == ColumnOver(d, kids)
    ensures Midway(placed1, top, kids)
  {
    if kids != [] {
      var a, b := kids[0], kids[|kids| - 1];
      assert a in kids && b in kids;
    }
  }

  /** Closing a subtree adds a leaf in the next column, or none. */
  lemma SettlingPacks(d0: Drawing, d: Drawing, top: int, depth: nat)
    requires top !in d0.placed && Extends(Marked(d0, top, depth), d) && Packed(Marked(d0, top, depth), d)
    requires forall k <- Kids(d.edges, top) :: k in d.placed
    ensures Packed(d0, Settled(d, top, depth, Kids(d.edges, top)))
  {
    var ns := New(Marked(d0, top, depth), d);
    var d1 := Settled(d, top, depth, Kids(d.edges, top));
    forall n | n in ns
      ensures SameLeaf(d, d1, n)
    {
      assert d1.placed[n] == d.placed[n];
    }
    CoversStay(ns, d, d1, d0.next, d.next);
    TopCovers(d1, top, d.next, d1.next);
    CoversJoin(ns, {top}, d1, d0.next, d.next, d1.next);
    assert New(d0, d1) == ns + {top};
  }

  lemma TopCovers(d: Drawing, top: int, lo: nat, hi: nat)
    requires if Kids(d.edges, top) == [] then hi == lo + 1 && LeafAt(d, top, lo) else hi == lo
    ensures Covers({top}, d, lo, hi)
  {
    if hi > lo {
      assert top in {top};
      assert Taken({top}, d, lo);
    }
  }

  lemma SettlingFinishes(d0: Drawing, d: Drawing, family: Family, top: int, depth: nat)
    requires ReadyToSettle(d0, d, family, top, depth)
    requires forall k <- Kids(d.edges, top) :: k in New(Marked(d0, top, depth), d)
    ensures var d1 := Settled(d, top, depth, Kids(d.edges, top));
      forall n <- New(Marked(d0, top, depth), d) + {top} ::
        Centred(d1, n) && forall c <- ChildrenOf(family, n) :: c in d1.placed
  {
    var dm := Marked(d0, top, depth);
    assert forall k <- Kids(d.edges, top) :: k in d.placed;
    forall n | n in New(dm, d) + {top}
      ensures Centred(Settled(d, top, depth, Kids(d.edges, top)), n)
    {
      KidsAreNew(d0, d, family, top, depth, n);
      assert n != top ==> Centred(d, n);
      SettlingCentres(d, top, depth, n);
    }
  }

  lemma TreeSettles(d0: Drawing, d: Drawing, family: Family, top: int, depth: nat)
    requires ReadyToSettle(d0, d, family, top, depth)
    ensures forall k <- Kids(d.edges, top) :: k in d.placed
    ensures Tree(d0, Settled(d, top, depth, Kids(d.edges, top)), family, top, depth)
  {
    KidsAreNew(d0, d, family, top, depth, top);
    SettlingSpreads(d0, d, top, depth);
    SettlingJoins(d0, d, family, top, depth);
    SettlingFinishes(d0, d, family, top, depth);
    SettlingPacks(d0, d, top, depth);
    var dm := Marked(d0, top, depth);
    assert top !in New(dm, d);
    assert New(dm, d) + {top} - {top} == New(dm, d);
  }

  /** Nothing has been drawn under `top` yet. */
  lemma MarkingStarts(d0: Drawing, family: Family, top: int, depth: nat)
    requires Rooted(d0) && top !in d0.placed
    ensures Branches(Marked(d0, top, depth), Marked(d0, top, depth), family, top, depth)
    ensures Kids(d0.edges, top) == []
  {
    KidsAreTargets(d0.edges, top);
  }

  // ------------------------------------------------------------------ one tree after another

  const EMPTY := Drawing(map[], [], 0)

  /** All that has been drawn: whole trees, each with its top in the first row. */
  ghost predicate Grove(d: Drawing, family: Family, tops: set<int>) {
    && Spread(EMPTY, d, 0)
    && tops <= d.placed.Keys && (forall t <- tops :: d.placed[t].depth == 0)
    && AllDrawn(d, family, d.placed.Keys, d.placed.Keys - tops, d.edges)
    && ReachOnce(d.edges, d.placed.Keys - tops)
    && Finished(EMPTY, d, family)
    && Packed(EMPTY, d)
    && Rooted(d)
  }

  lemma GroveJoins(d: Drawing, d2: Drawing, family: Family, tops: set<int>, top: int)
    requires Extends(d, d2) && top in New(d, d2) && tops <= d.placed.Keys
    requires AllDrawn(d, family, d.placed.Keys, d.placed.Keys - tops, d.edges) && ReachOnce(d.edges, d.placed.Keys - tops)
    requires Joined(d, d2, family, New(d, d2), New(d, d2) - {top})
    ensures AllDrawn(d2, family, d2.placed.Keys, d2.placed.Keys - (tops + {top}), d2.edges)
    ensures ReachOnce(d2.edges, d2.placed.Keys - (tops + {top}))
  {
    var before, below := d.placed.Keys - tops, New(d, d2) - {top};
    var all, rest := d2.placed.Keys, d2.placed.Keys - (tops + {top});
    assert rest == before + below;
    assert d2.edges == d.edges + NewEdges(d, d2);
    AllDrawnStays(d, d2, family, d.placed.Keys, before, all, rest, d.edges);
    AllDrawnStays(d2, d2, family, New(d, d2), below, all, rest, NewEdges(d, d2));
    TargetsIn(d, family, d.placed.Keys, before, d.edges);
    TargetsIn(d2, family, New(d, d2), below, NewEdges(d, d2));
    ReachOnceJoins(d.edges, NewEdges(d, d2), before, below);
  }

  lemma GroveFinishes(d: Drawing, d2: Drawing, family: Family, tops: set<int>, top: int)
    requires Grove(d, family, tops) && Tree(d, d2, family, top, 0)
    ensures Finished(EMPTY, d2, family)
  {
    forall n | n in d.placed
      ensures Centred(d2, n) && forall c <- ChildrenOf(family, n) :: c in d2.placed
    {
      assert n in New(EMPTY, d);
      forall e | e in NewEdges(d, d2)
        ensures e.from != n
      {
        assert Drawn(d2, family, New(d, d2), New(d, d2) - {top}, e);
      }
      CentringStays(d, d2, n);
    }
  }

  lemma GrovePacks(d: Drawing, d2: Drawing, family: Family, top: int)
    requires Packed(EMPTY, d) && Tree(d, d2, family, top, 0)
    ensures Packed(EMPTY, d2)
  {
    forall n, e | n in New(EMPTY, d) && e in NewEdges(d, d2)
      ensures e.from != n
    {
      assert Drawn(d2, family, New(d, d2), New(d, d2) - {top}, e);
    }
    PackedGrows(EMPTY, d, d2);
  }

  lemma GroveGrows(d: Drawing, d2: Drawing, family: Family, tops: set<int>, top: int)
    requires Grove(d, family, tops) && Tree(d, d2, family, top, 0)
    ensures Grove(d2, family, tops + {top})
  {
    assert Extends(EMPTY, d);
    SpreadGrows(EMPTY, d, d2, 0);
    GroveJoins(d, d2, family, tops, top);
    GroveFinishes(d, d2, family, tops, top);
    GrovePacks(d, d2, family, top);
    forall t | t in tops + {top}
      ensures d2.placed[t].depth == 0
    {
      if t != top {
        assert d2.placed[t] == d.placed[t];
      }
    }
  }

  /** Agents whose chain of parents ends: each parent in the roster has a smaller rank. */
  predicate Grounded(agents: seq<Agent>, rank: map<int, nat>) {
    forall c <- rank, p <- Ids(agents) | Link(agents, p, c) :: p in rank && rank[p] < rank[c]
  }

  /** The family lists exactly the links. */
  predicate ListsLinks(agents: seq<Agent>, family: Family) {
    && (forall p, c | p in family && c in family[p] :: Link(agents, p, c))
    && (forall p <- Ids(agents), c <- Ids(agents) | Link(agents, p, c) :: c in ChildrenOf(family, p))
  }

  /** And the tops are exactly the agents without one. */
  predicate Matches(agents: seq<Agent>, family: Family, roots: set<int>) {
    && ListsLinks(agents, family)
    && (forall c <- Ids(agents) :: c in roots <==> forall p <- Ids(agents) :: !Link(agents, p, c))
  }

  /** Once every root's tree is drawn, every grounded agent is placed. */
  lemma {:induction false} GroundedIsPlaced(agents: seq<Agent>, d: Drawing, family: Family, roots: set<int>, rank: map<int, nat>, c: int)
    requires Matches(agents, family, roots) && Grounded(agents, rank) && Grove(d, family, roots)
    requires c in rank && c in Ids(agents)
    ensures c in d.placed
    decreases rank[c]
  {
    if c !in roots {
      var p :| p in Ids(agents) && Link(agents, p, c);
      GroundedIsPlaced(agents, d, family, roots, rank, p);
      assert p in New(EMPTY, d);
    }
  }

  /** A placed agent below the tops hangs from the one parent that lists it. */
  lemma PlacedIsDrawn(d: Drawing, family: Family, roster: set<int>, tops: set<int>, p: int, c: int)
    requires Orderly(family, roster) && Grove(d, family, tops)
    requires c in d.placed && c !in tops && c in ChildrenOf(family, p)
    ensures Edge(p, c) in d.edges
  {
    assert c in d.placed.Keys - tops;
    var e :| e in d.edges && e.to == c;
    assert Drawn(d, family, d.placed.Keys, d.placed.Keys - tops, e);
    assert p in family && e.from in family && c in family[p] && c in family[e.from];
    assert e == Edge(p, c);
  }

  /** So its link is drawn. */
  lemma GroundedIsDrawn(agents: seq<Agent>, d: Drawing, family: Family, roots: set<int>, rank: map<int, nat>, p: int, c: int)
    requires Orderly(family, Ids(agents))
    requires Matches(agents, family, roots) && Grounded(agents, rank) && Grove(d, family, roots)
    requires c in rank && c in Ids(agents) && p in Ids(agents) && Link(agents, p, c)
    ensures Edge(p, c) in d.edges
  {
    GroundedIsPlaced(agents, d, family, roots, rank, c);
    PlacedIsDrawn(d, family, Ids(agents), roots, p, c);
  }

  // ------------------------------------------------------------------ how wide it gets

  /** The agents without drawn children. */
  function Leaves(d: Drawing): set<int> {
    set n <- d.placed | Kids(d.edges, n) == []
  }

  function LeavesBefore(d: Drawing, k: nat): set<int> {
    set n <- Leaves(d) | d.placed[n].column < k as real
  }

  lemma {:induction false} LeavesCount(d: Drawing, k: nat)
    requires Packed(EMPTY, d) && k <= d.next
    ensures |LeavesBefore(d, k)| == k
  {
    if k == 0 {
      forall n | n in Leaves(d)
        ensures d.placed[n].column >= 0.0
      {
        assert n in New(EMPTY, d);
        assert HasColumn(d, n, 0, d.next);
      }
      assert LeavesBefore(d, 0) == {};
    } else {
      LeavesCount(d, k - 1);
      assert Taken(New(EMPTY, d), d, k - 1);
      var n :| n in New(EMPTY, d) && LeafAt(d, n, k - 1);
      forall m | m in Leaves(d)
        ensures m in LeavesBefore(d, k) <==> m in LeavesBefore(d, k - 1) || m == n
      {
        assert m in New(EMPTY, d) && HasColumn(d, m, 0, d.next);
        var i: nat :| 0 <= i < d.next && LeafAt(d, m, i);
        assert i < k ==> i as real < k as real;
        assert i >= k ==> i as real >= k as real;
        if i == k - 1 {
          assert LeafAt(d, m, k - 1);
        }
      }
      assert LeavesBefore(d, k) == LeavesBefore(d, k - 1) + {n};
    }
  }

  /** The columns taken are as many as there are leaves, and the last of them is that of a leaf. */
  lemma ColumnsAreLeaves(d: Drawing)
    requires Packed(EMPTY, d)
    ensures |Leaves(d)| == d.next
    ensures d.next > 0 ==> exists n <- Leaves(d) :: d.placed[n].column == d.next as real - 1.0
  {
    LeavesCount(d, d.next);
    forall n | n in Leaves(d)
      ensures d.placed[n].column < d.next as real
    {
      assert n in New(EMPTY, d) && HasColumn(d, n, 0, d.next);
      var i: nat :| 0 <= i < d.next && LeafAt(d, n, i);
      assert i as real < d.next as real;
    }
    assert LeavesBefore(d, d.next) == Leaves(d);
    if d.next > 0 {
      assert Taken(New(EMPTY, d), d, d.next - 1);
      var n :| n in New(EMPTY, d) && LeafAt(d, n, d.next - 1);
      assert n in Leaves(d);
    }
  }
}
