/** The distance between two cores is the length of the shortest walk over the wires between them. */
module ClusterPaths {
  import opened Words
  import opened Cursors
  import opened Cluster

  /** A wire joins two cores: next to each other on the ring, or in a row or a column of the mesh. */
  predicate Wired(c: Shape, link: Link)
    requires c.topology == Mesh ==> c.cols > 0
  {
    && link.src < c.cores && link.dst < c.cores
    && match c.topology
       case Isolated => false
       case Ring =>
         link.src != link.dst && (link.dst == (link.src + 1) % c.cores || link.src == (link.dst + 1) % c.cores)
       case Mesh =>
         || link.dst == link.src + c.cols || link.src == link.dst + c.cols
         || (link.src / c.cols == link.dst / c.cols && (link.dst == link.src + 1 || link.src == link.dst + 1))
  }

  /** A walk that only uses wires. */
  ghost predicate Wires(c: Shape, links: seq<Link>, src: nat, dst: nat)
    requires c.topology == Mesh ==> c.cols > 0
  {
    Walk(links, src, dst) && forall i :: 0 <= i < |links| ==> Wired(c, links[i])
  }

  lemma ColumnsExist(c: Shape)
    requires ValidShape(c)
    ensures c.topology == Mesh ==> c.cols > 0
  {
    if c.topology == Mesh {
      MeshHolds(c);
    }
  }

  lemma NextIsModulo(n: nat, core: nat)
    requires core < n
    ensures (core + 1) % n == NextOnRing(n, core)
  {
    AtIsModulo(n, core, if n == 1 then 0 else 1);
    if n == 1 {
      DivModUnique(1, 1, 0);
    }
  }

  /** Two cores are one hop apart exactly if a wire joins them. */
  lemma OneHopIsWire(c: Shape, a: nat, b: nat)
    requires ValidShape(c) && a < c.cores && b < c.cores && (c.topology == Mesh ==> c.cols > 0)
    ensures Wired(c, Link(a, b)) <==> HopDistance(c, a, b) == Some(1)
  {
    match c.topology
    case Isolated =>
    case Ring =>
      NextIsModulo(c.cores, a);
      NextIsModulo(c.cores, b);
    case Mesh => MeshWire(c, a, b);
  }

  lemma MeshWire(c: Shape, a: nat, b: nat)
    requires ValidShape(c) && c.topology == Mesh && a < c.cores && b < c.cores && c.cols > 0
    ensures Wired(c, Link(a, b)) <==> HopDistance(c, a, b) == Some(1)
  {
    MeshDistance(c, a, b);
    MeshNeighbor(c, a, b);
    MeshNeighbor(c, b, a);
    var p, q := PlaceOf(c, a), PlaceOf(c, b);
    assert p.row == a / c.cols && q.row == b / c.cols;
    if b == a + c.cols {
      ColumnNeighbor(c, a, b);
    } else if a == b + c.cols {
      ColumnNeighbor(c, b, a);
    }
  }

  /** One hop changes the distance to a core by at most one. */
  lemma OneHopNearer(c: Shape, a: nat, b: nat, dst: nat)
    requires ValidShape(c) && a < c.cores && b < c.cores && dst < c.cores && HopDistance(c, a, b) == Some(1)
    requires HopDistance(c, b, dst).Some?
    ensures HopDistance(c, a, dst).Some? && HopDistance(c, a, dst).value <= HopDistance(c, b, dst).value + 1
  {
    match c.topology
    case Isolated =>
    case Ring =>
    case Mesh =>
      MeshDistance(c, a, b);
      MeshDistance(c, b, dst);
      MeshDistance(c, a, dst);
  }

  /** No walk over wires is shorter than the distance, which exists if there is one. */
  lemma {:induction false} NoShorterWalk(c: Shape, links: seq<Link>, src: nat, dst: nat)
    requires ValidShape(c) && (c.topology == Mesh ==> c.cols > 0) && src < c.cores && dst < c.cores
    requires Wires(c, links, src, dst)
    ensures HopDistance(c, src, dst).Some? && HopDistance(c, src, dst).value <= |links|
    decreases |links|
  {
    if links == [] {
      DistanceSymmetric(c, src, dst);
    } else {
      var next := links[0].dst;
      assert Wired(c, links[0]) && links[0] == Link(src, next);
      NoShorterWalk(c, links[1..], next, dst);
      OneHopIsWire(c, src, next);
      OneHopNearer(c, src, next, dst);
    }
  }

  lemma LinksAreWires(c: Shape, links: seq<Link>, src: nat, dst: nat)
    requires ValidShape(c) && (c.topology == Mesh ==> c.cols > 0) && Walk(links, src, dst) && AllLinks(c, links)
    ensures Wires(c, links, src, dst)
  {
    forall i | 0 <= i < |links|
      ensures Wired(c, links[i])
    {
      assert Adjacent(c, links[i]);
      OneHopIsWire(c, links[i].src, links[i].dst);
    }
  }

  /** Distances do not depend on the routing, and neither do links. */
  lemma RoutingIrrelevant(c: Shape, r: Routing, links: seq<Link>, src: nat, dst: nat)
    requires ValidShape(c) && AllLinks(c.(routing := r), links)
    ensures HopDistance(c.(routing := r), src, dst) == HopDistance(c, src, dst)
    ensures AllLinks(c, links)
  {
    forall i | 0 <= i < |links|
      ensures Adjacent(c, links[i])
    {
      assert Adjacent(c.(routing := r), links[i]);
    }
  }

  /** The walk of a route under some routing. */
  lemma RouteIsWalk(c: Shape, r: Routing, src: nat, dst: nat)
    requires ValidShape(c) && (c.topology == Mesh ==> c.cols > 0) && src < c.cores && dst < c.cores
    requires Route(c.(routing := r), src, dst).Some?
    ensures var links := Route(c.(routing := r), src, dst).value;
            Wires(c, links, src, dst) && HopDistance(c, src, dst) == Some(|links|)
  {
    var links := Route(c.(routing := r), src, dst).value;
    RouteIsDistance(c.(routing := r), src, dst);
    RoutingIrrelevant(c, r, links, src, dst);
    LinksAreWires(c, links, src, dst);
  }

  /** If two cores have a distance, a walk over wires has that length, also where the mesh is ragged. */
  lemma ShortestWalkExists(c: Shape, src: nat, dst: nat) returns (links: seq<Link>)
    requires ValidShape(c) && (c.topology == Mesh ==> c.cols > 0) && src < c.cores && dst < c.cores
    requires HopDistance(c, src, dst).Some?
    ensures Wires(c, links, src, dst) && HopDistance(c, src, dst) == Some(|links|)
  {
    if c.topology == Mesh {
      SomeRoutingSucceeds(c, src, dst);
      var r := if Route(c.(routing := ColumnsFirst), src, dst).Some? then ColumnsFirst else RowsFirst;
      RouteIsWalk(c, r, src, dst);
      links := Route(c.(routing := r), src, dst).value;
    } else {
      RouteIsWalk(c, c.routing, src, dst);
      links := Route(c, src, dst).value;
    }
  }

  /** Cores of a ring or mesh always have a distance; isolated cores have one to themselves only. */
  lemma Reachable(c: Shape, src: nat, dst: nat)
    requires ValidShape(c)
    ensures HopDistance(c, src, dst).Some? <==>
              src < c.cores && dst < c.cores && (src == dst || c.topology != Isolated)
  {
    if c.topology == Mesh && src < c.cores && dst < c.cores {
      MeshDistance(c, src, dst);
    }
  }
}
